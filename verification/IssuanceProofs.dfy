/** What every run of the issuance pipeline keeps, whatever the signers answer,
    the clock says and the database does. */
module IssuanceProofs {
  import opened Common
  import opened Issuance
  import Int64

  // ---- the invariant ----

  predicate RowOk(r: Row) {
    && r.recipient > 0 && r.fee >= 0 && Outflow(r) <= Int64.MAX
    && Consistent(StageOf(r))
    && (r.vaultPsbt.Some? <==> r.state != Reserved) && (r.signedPsbt.Some? <==> r.state == Completed)
  }

  predicate RowsOk(rows: seq<Row>) {
    && (forall i :: 0 <= i < |rows| ==> RowOk(rows[i]))
    && (forall i, j :: 0 <= i < j < |rows| ==> rows[i].key != rows[j].key)
  }

  function RowAt(rows: seq<Row>, key: Key): Option<Row> {
    FindIndex(rows, key);
    if Find(rows, key).Some? then Some(rows[Find(rows, key).value]) else None
  }

  /** Some event says that the key's vault signature was stored. */
  predicate VaultStored(log: seq<Event>, key: Key) {
    exists e :: e in log && e.RowVaultSigned? && e.key == key
  }

  predicate SignedStored(log: seq<Event>, key: Key) {
    exists e :: e in log && e.RowCompleted? && e.key == key
  }

  predicate Charged(log: seq<Event>, key: Key) {
    exists e :: e in log && e.RowReserved? && e.key == key
  }

  /** What must have happened, and what must not, before an event. */
  predicate Justified(before: seq<Event>, e: Event) {
    match e
    case Begun(_, _) => true
    case RowReserved(k, _) => !Charged(before, k)
    case PrivateAsked(k, q) => RowReserved(k, q) in before && !VaultStored(before, k)
    case RowVaultSigned(k, _) => Charged(before, k) && !VaultStored(before, k)
    case PublicAsked(k, t) => RowVaultSigned(k, t) in before && !SignedStored(before, k)
    case RowCompleted(k, _) => VaultStored(before, k) && !SignedStored(before, k)
    case Replied(k, r) =>
      match r
      case Signed(t, _) => RowCompleted(k, t) in before
      case SignedLate(t) => RowCompleted(k, t) in before
      case Refused(_) => true
  }

  predicate Ordered(log: seq<Event>) {
    forall i :: 0 <= i < |log| ==> Justified(log[..i], log[i])
  }

  /** The log tells of the rows: an event about a row is in the log exactly when
      the row says the same. */
  predicate Told(rows: seq<Row>, log: seq<Event>) {
    && (forall e :: e in log && e.RowReserved? ==>
          RowAt(rows, e.key).Some? && RowAt(rows, e.key).value.request == e.request)
    && (forall e :: e in log && e.RowVaultSigned? ==>
          RowAt(rows, e.key).Some? && RowAt(rows, e.key).value.vaultPsbt == Some(e.text))
    && (forall e :: e in log && e.RowCompleted? ==>
          RowAt(rows, e.key).Some? && RowAt(rows, e.key).value.signedPsbt == Some(e.text))
    && (forall i :: 0 <= i < |rows| ==> RowTold(rows[i], log))
  }

  predicate RowTold(r: Row, log: seq<Event>) {
    && RowReserved(r.key, r.request) in log
    && (r.vaultPsbt.Some? ==> RowVaultSigned(r.key, r.vaultPsbt.value) in log)
    && (r.signedPsbt.Some? ==> RowCompleted(r.key, r.signedPsbt.value) in log)
  }

  /** How often the private signer was asked about a key. */
  function PrivateCount(log: seq<Event>, key: Key): nat {
    if log == [] then 0
    else PrivateCount(log[..|log| - 1], key) + if Last(log).PrivateAsked? && Last(log).key == key then 1 else 0
  }

  predicate LegacyOnly(log: seq<Event>, key: Key) {
    Begun(key, true) !in log
  }

  /** A key that only legacy calls touched was asked about at most once. */
  ghost predicate LegacyOnce(rows: seq<Row>, log: seq<Event>) {
    forall k :: LegacyOnly(log, k) ==>
      PrivateCount(log, k) <= 1 && (PrivateCount(log, k) > 0 ==> RowAt(rows, k).Some?)
  }

  predicate PhaseOk(rows: seq<Row>, log: seq<Event>, req: Request, phase: Phase) {
    var row := RowAt(rows, req.key);
    match phase
    case Reserving => true
    case AskingPrivate =>
      && row.Some? && row.value.state == Reserved && row.value.request == req.psbt
      && (LegacyOnly(log, req.key) ==> PrivateCount(log, req.key) == 0)
    case StoringVault(t) =>
      row.Some? && row.value.state == Reserved && row.value.request == req.psbt && t != ""
    case AskingPublic(t) =>
      && row.Some? && row.value.state == VaultSigned && row.value.request == req.psbt
      && row.value.vaultPsbt == Some(t) && t != ""
    case StoringSigned(t) =>
      row.Some? && row.value.state == VaultSigned && row.value.request == req.psbt && t != ""
  }

  ghost predicate CallOk(m: Machine) {
    m.call.Some? ==>
      var c := m.call.value;
      && RequestFault(c.req).None? && Begun(c.req.key, c.req.staged) in m.log
      && PhaseOk(m.rows, m.log, c.req, c.phase)
  }

  ghost predicate Core(rows: seq<Row>, log: seq<Event>) {
    RowsOk(rows) && Ordered(log) && Told(rows, log) && LegacyOnce(rows, log)
  }

  ghost predicate Inv(m: Machine) {
    Core(m.rows, m.log) && CallOk(m)
  }

  // ---- rows only grow ----

  function Rank(s: RowState): nat {
    match s case Reserved => 0 case VaultSigned => 1 case Completed => 2
  }

  predicate RowGrows(a: Row, b: Row) {
    && a.key == b.key && a.period == b.period && a.recipient == b.recipient && a.fee == b.fee
    && a.request == b.request && Rank(a.state) <= Rank(b.state)
    && (a.vaultPsbt.Some? ==> b.vaultPsbt == a.vaultPsbt)
    && (a.signedPsbt.Some? ==> b.signedPsbt == a.signedPsbt)
  }

  predicate Grows(xs: seq<Row>, ys: seq<Row>) {
    |xs| <= |ys| && forall i :: 0 <= i < |xs| ==> RowGrows(xs[i], ys[i])
  }

  // ---- looking rows up ----

  lemma {:induction false} FindAppended(rows: seq<Row>, row: Row, key: Key)
    ensures Find(rows + [row], key) ==
            if Find(rows, key).Some? then Find(rows, key)
            else if row.key == key then Some(|rows|) else None
  {
    if rows == [] {
      assert [row][1..] == [] && rows + [row] == [row];
    } else {
      FindAppended(rows[1..], row, key);
      assert (rows + [row])[1..] == rows[1..] + [row];
    }
  }

  lemma RowAppended(rows: seq<Row>, row: Row, key: Key)
    ensures RowAt(rows + [row], key) ==
            if RowAt(rows, key).Some? then RowAt(rows, key)
            else if row.key == key then Some(row) else None
  {
    FindAppended(rows, row, key);
    FindIndex(rows, key);
    FindIndex(rows + [row], key);
  }

  lemma {:induction false} FindUpdated(rows: seq<Row>, i: nat, row: Row, key: Key)
    requires i < |rows| && row.key == rows[i].key
    ensures Find(rows[i := row], key) == Find(rows, key)
  {
    if i > 0 {
      FindUpdated(rows[1..], i - 1, row, key);
      assert rows[i := row][1..] == rows[1..][i - 1 := row];
    } else {
      assert rows[i := row][1..] == rows[1..];
    }
  }

  lemma RowUpdated(rows: seq<Row>, i: nat, row: Row, key: Key)
    requires RowsOk(rows) && i < |rows| && row.key == rows[i].key
    ensures RowAt(rows[i := row], key) == if key == row.key then Some(row) else RowAt(rows, key)
  {
    FindUpdated(rows, i, row, key);
    FindIndex(rows, key);
    FindIndex(rows[i := row], key);
  }

  // ---- the log ----

  lemma LogOne(log: seq<Event>, e: Event)
    requires Ordered(log) && Justified(log, e)
    ensures Ordered(log + [e])
  {
    hide Justified;
    var all := log + [e];
    forall i | 0 <= i < |all|
      ensures Justified(all[..i], all[i])
    {
      if i < |log| {
        assert all[..i] == log[..i];
      } else {
        assert all[..i] == log;
      }
    }
  }

  lemma CountOne(log: seq<Event>, e: Event, key: Key)
    ensures PrivateCount(log + [e], key) == PrivateCount(log, key) + if e.PrivateAsked? && e.key == key then 1 else 0
  {
    assert (log + [e])[..|log|] == log;
  }

  /** An event that is not about a row. */
  predicate Quiet(e: Event) {
    e.Begun? || e.PrivateAsked? || e.PublicAsked? || e.Replied?
  }

  lemma QuietTold(rows: seq<Row>, log: seq<Event>, e: Event)
    requires Told(rows, log) && Quiet(e)
    ensures Told(rows, log + [e])
  {
    hide RowAt;
  }

  lemma QuietOnce(rows: seq<Row>, log: seq<Event>, e: Event)
    requires LegacyOnce(rows, log)
    requires e.PrivateAsked? ==>
               RowAt(rows, e.key).Some? && (LegacyOnly(log, e.key) ==> PrivateCount(log, e.key) == 0)
    ensures LegacyOnce(rows, log + [e])
  {
    hide RowAt, PrivateCount;
    forall k | LegacyOnly(log + [e], k)
      ensures PrivateCount(log + [e], k) <= 1 && (PrivateCount(log + [e], k) > 0 ==> RowAt(rows, k).Some?)
    {
      CountOne(log, e, k);
      assert LegacyOnly(log, k);
    }
  }

  /** The row and the log agree on how far the key has come. */
  lemma ToldStates(rows: seq<Row>, log: seq<Event>, key: Key)
    requires RowsOk(rows) && Told(rows, log)
    ensures Charged(log, key) <==> RowAt(rows, key).Some?
    ensures VaultStored(log, key) <==> RowAt(rows, key).Some? && RowAt(rows, key).value.state != Reserved
    ensures SignedStored(log, key) <==> RowAt(rows, key).Some? && RowAt(rows, key).value.state == Completed
    ensures RowAt(rows, key).Some? ==> RowTold(RowAt(rows, key).value, log) && RowOk(RowAt(rows, key).value)
    ensures RowAt(rows, key).Some? ==> RowAt(rows, key).value.key == key
  {
    FindIndex(rows, key);
    hide Find, Consistent, Outflow;
    if RowAt(rows, key).Some? {
      var r := RowAt(rows, key).value;
      assert r == rows[Find(rows, key).value];
      assert RowTold(r, log) && RowOk(r);
    }
  }

  // ---- events and transactions keep the core ----

  lemma CoreQuiet(rows: seq<Row>, log: seq<Event>, e: Event)
    requires Core(rows, log) && Quiet(e) && Justified(log, e)
    requires e.PrivateAsked? ==>
               RowAt(rows, e.key).Some? && (LegacyOnly(log, e.key) ==> PrivateCount(log, e.key) == 0)
    ensures Core(rows, log + [e])
  {
    hide RowsOk, Ordered, Told, LegacyOnce, Justified, RowAt;
    LogOne(log, e);
    QuietTold(rows, log, e);
    QuietOnce(rows, log, e);
  }

  lemma ReservedTold(rows: seq<Row>, log: seq<Event>, row: Row)
    requires Told(rows, log) && RowAt(rows, row.key).None? && row.vaultPsbt.None? && row.signedPsbt.None?
    ensures Told(rows + [row], log + [RowReserved(row.key, row.request)])
  {
    hide RowAt;
    forall k: Key
      ensures RowAt(rows + [row], k) ==
              if RowAt(rows, k).Some? then RowAt(rows, k) else if row.key == k then Some(row) else None
    {
      RowAppended(rows, row, k);
    }
    var all := log + [RowReserved(row.key, row.request)];
    forall i | 0 <= i < |rows + [row]|
      ensures RowTold((rows + [row])[i], all)
    {
      if i < |rows| {
        assert RowTold(rows[i], log);
      }
    }
  }

  lemma ReservedOnce(rows: seq<Row>, log: seq<Event>, row: Row)
    requires LegacyOnce(rows, log)
    ensures LegacyOnce(rows + [row], log + [RowReserved(row.key, row.request)])
  {
    hide RowAt, PrivateCount;
    var e := RowReserved(row.key, row.request);
    forall k | LegacyOnly(log + [e], k)
      ensures PrivateCount(log + [e], k) <= 1
      ensures PrivateCount(log + [e], k) > 0 ==> RowAt(rows + [row], k).Some?
    {
      CountOne(log, e, k);
      assert LegacyOnly(log, k);
      RowAppended(rows, row, k);
    }
  }

  lemma CoreReserve(rows: seq<Row>, log: seq<Event>, r: Request, period: Text)
    requires Core(rows, log) && RequestFault(r).None? && AddOutflow(r.recipient, r.fee).Ok?
    requires RowAt(rows, r.key).None?
    ensures var row := NewRow(r, period);
            Core(rows + [row], log + [RowReserved(r.key, r.psbt)])
            && PhaseOk(rows + [row], log + [RowReserved(r.key, r.psbt)], r, AskingPrivate)
  {
    hide RowsOk, Ordered, Told, LegacyOnce, RowAt, PrivateCount, Justified;
    var row, e := NewRow(r, period), RowReserved(r.key, r.psbt);
    ToldStates(rows, log, r.key);
    JustCharged(log, r.key, r.psbt);
    LogOne(log, e);
    ReservedTold(rows, log, row);
    ReservedOnce(rows, log, row);
    AppendOk(rows, row);
    RowAppended(rows, row, r.key);
    NeverAsked(rows, log, r);
  }

  lemma NeverAsked(rows: seq<Row>, log: seq<Event>, r: Request)
    requires LegacyOnce(rows, log) && RowAt(rows, r.key).None?
    ensures var all := log + [RowReserved(r.key, r.psbt)];
            LegacyOnly(all, r.key) ==> PrivateCount(all, r.key) == 0
  {
    hide RowAt;
    var e := RowReserved(r.key, r.psbt);
    CountOne(log, e, r.key);
    hide PrivateCount;
    if LegacyOnly(log + [e], r.key) {
      assert LegacyOnly(log, r.key);
    }
  }

  lemma JustCharged(log: seq<Event>, key: Key, request: Text)
    requires !Charged(log, key)
    ensures Justified(log, RowReserved(key, request))
  {
  }

  lemma AppendOk(rows: seq<Row>, row: Row)
    requires RowsOk(rows) && RowOk(row) && RowAt(rows, row.key).None?
    ensures RowsOk(rows + [row])
  {
    FindIndex(rows, row.key);
    hide RowOk;
  }

  /** The event of a signing stage that was stored. */
  function StageEvent(want: RowState, key: Key, text: Text): Event {
    if want == Reserved then RowVaultSigned(key, text) else RowCompleted(key, text)
  }

  lemma StagedTold(rows: seq<Row>, log: seq<Event>, i: nat, text: Text)
    requires RowsOk(rows) && Told(rows, log) && i < |rows| && rows[i].state != Completed
    ensures Told(rows[i := Advanced(rows[i], text)], log + [StageEvent(rows[i].state, rows[i].key, text)])
  {
    hide Consistent, Outflow;
    assert RowOk(rows[i]);
    hide RowsOk;
    var row, row' := rows[i], Advanced(rows[i], text);
    var e := StageEvent(row.state, row.key, text);
    var rows' := rows[i := row'];
    forall k: Key
      ensures RowAt(rows', k) == if k == row.key then Some(row') else RowAt(rows, k)
    {
      RowUpdated(rows, i, row', k);
    }
    UpdatedAt(rows, i);
    hide RowAt;
    forall j | 0 <= j < |rows'|
      ensures RowTold(rows'[j], log + [e])
    {
      assert RowTold(rows[j], log);
    }
  }

  lemma UpdatedAt(rows: seq<Row>, i: nat)
    requires RowsOk(rows) && i < |rows|
    ensures RowAt(rows, rows[i].key) == Some(rows[i])
  {
    hide RowOk;
    FindIndex(rows, rows[i].key);
  }

  lemma StagedOnce(rows: seq<Row>, log: seq<Event>, i: nat, row: Row, e: Event)
    requires RowsOk(rows) && LegacyOnce(rows, log) && i < |rows| && row.key == rows[i].key
    requires e.RowVaultSigned? || e.RowCompleted?
    ensures LegacyOnce(rows[i := row], log + [e])
  {
    hide RowAt, PrivateCount, RowsOk;
    forall k | LegacyOnly(log + [e], k)
      ensures PrivateCount(log + [e], k) <= 1
      ensures PrivateCount(log + [e], k) > 0 ==> RowAt(rows[i := row], k).Some?
    {
      CountOne(log, e, k);
      assert LegacyOnly(log, k);
      RowUpdated(rows, i, row, k);
    }
  }

  lemma StagedOk(rows: seq<Row>, i: nat, text: Text)
    requires RowsOk(rows) && i < |rows| && rows[i].state != Completed && text != ""
    ensures RowsOk(rows[i := Advanced(rows[i], text)])
  {
    var row' := Advanced(rows[i], text);
    assert RowOk(row') by {
      assert RowOk(rows[i]);
    }
    hide RowOk;
  }

  /** A stored stage keeps the core and leaves the row one state further. */
  lemma CoreStage(rows: seq<Row>, log: seq<Event>, key: Key, want: RowState, text: Text)
    requires Core(rows, log) && want != Completed && text != "" && StageTx(rows, key, want, text).Ok?
    ensures var rows' := StageTx(rows, key, want, text).value;
            && Core(rows', log + [StageEvent(want, key, text)])
            && RowAt(rows, key).Some? && RowAt(rows', key) == Some(Advanced(RowAt(rows, key).value, text))
            && RowAt(rows, key).value.state == want
  {
    hide RowsOk, Ordered, Told, PrivateCount;
    FindIndex(rows, key);
    var i := Find(rows, key).value;
    var row' := Advanced(rows[i], text);
    var e := StageEvent(want, key, text);
    ToldStates(rows, log, key);
    LogOne(log, e);
    StagedTold(rows, log, i, text);
    StagedOnce(rows, log, i, row', e);
    StagedOk(rows, i, text);
    RowUpdated(rows, i, row', key);
  }

  // ---- every step keeps the invariant ----

  lemma EndKeeps(m: Machine, key: Key, r: IssueResult)
    requires Core(m.rows, m.log) && Justified(m.log, Replied(key, r))
    ensures Inv(End(m, key, r))
  {
    hide Core, Justified;
    CoreQuiet(m.rows, m.log, Replied(key, r));
  }

  lemma RefusalKeeps(m: Machine, key: Key, e: IssueError)
    requires Core(m.rows, m.log)
    ensures Inv(End(m, key, Refused(e)))
  {
    hide Core;
    EndKeeps(m, key, Refused(e));
  }

  predicate Started(m: Machine, req: Request) {
    RequestFault(req).None? && Begun(req.key, req.staged) in m.log
  }

  lemma NextKeeps(m: Machine, req: Request, phase: Phase)
    requires Core(m.rows, m.log) && Started(m, req) && PhaseOk(m.rows, m.log, req, phase)
    ensures Inv(Next(m, req, phase))
  {
    hide Core, PhaseOk;
  }

  lemma BeginKeeps(m: Machine, req: Request)
    requires Inv(m)
    ensures Inv(BeginStep(m, req))
  {
    hide Core, PhaseOk;
    if m.call.None? && RequestFault(req).None? {
      var e := Begun(req.key, req.staged);
      CoreQuiet(m.rows, m.log, e);
      InReserving(m.rows, m.log + [e], req);
      NextKeeps(Logged(m, e), req, Reserving);
    }
  }

  lemma InReserving(rows: seq<Row>, log: seq<Event>, req: Request)
    ensures PhaseOk(rows, log, req, Reserving)
  {
  }

  /** What a committed reservation did. */
  lemma ReserveResult(rows: seq<Row>, r: Request, period: Text)
    requires ReserveTx(rows, r, period).Ok?
    ensures var (rows', stage) := ReserveTx(rows, r, period).value;
            if stage.created then
              && RowAt(rows, r.key).None? && AddOutflow(r.recipient, r.fee).Ok?
              && rows' == rows + [NewRow(r, period)] && stage.state == Reserved
              && Spent(rows, r.key.vault, period) + r.recipient + r.fee <= r.cap
            else
              && rows' == rows && RowAt(rows, r.key).Some?
              && stage == StageOf(RowAt(rows, r.key).value) && Consistent(stage) && stage.request == r.psbt
  {
    FindIndex(rows, r.key);
    hide Spent, Consistent;
  }

  lemma StoredPhase(rows: seq<Row>, log: seq<Event>, r: Request)
    requires Core(rows, log) && RowAt(rows, r.key).Some?
    requires var stage := StageOf(RowAt(rows, r.key).value);
             Consistent(stage) && stage.request == r.psbt && stage.state != Completed
               && (stage.state == Reserved ==> r.staged)
    requires Begun(r.key, r.staged) in log
    ensures var row := RowAt(rows, r.key).value;
            if row.state == Reserved then PhaseOk(rows, log, r, AskingPrivate)
            else PhaseOk(rows, log, r, AskingPublic(StageOf(row).vaultPsbt))
  {
    hide RowAt, PrivateCount, Ordered, Told, LegacyOnce, RowsOk;
    ToldStates(rows, log, r.key);
  }

  lemma StoredSigned(rows: seq<Row>, log: seq<Event>, key: Key)
    requires Core(rows, log) && RowAt(rows, key).Some? && RowAt(rows, key).value.state == Completed
    ensures RowCompleted(key, StageOf(RowAt(rows, key).value).signedPsbt) in log
  {
    hide RowAt, PrivateCount, Ordered, Told, LegacyOnce, RowsOk, Consistent;
    ToldStates(rows, log, key);
  }

  lemma AfterReserveKeeps(m: Machine, req: Request, stage: Stage)
    requires Core(m.rows, m.log) && Started(m, req)
    requires if stage.created then stage.state == Reserved && PhaseOk(m.rows, m.log, req, AskingPrivate)
             else RowAt(m.rows, req.key).Some? && stage == StageOf(RowAt(m.rows, req.key).value)
                  && Consistent(stage) && stage.request == req.psbt
    ensures Inv(AfterReserve(m, req, stage))
  {
    hide Core, PhaseOk, RowAt, Consistent;
    match stage.state
    case Completed =>
      StoredSigned(m.rows, m.log, req.key);
      EndKeeps(m, req.key, Signed(stage.signedPsbt, true));
    case Reserved =>
      if !stage.created && !req.staged {
        RefusalKeeps(m, req.key, AmbiguousAttempt);
      } else {
        if !stage.created {
          StoredPhase(m.rows, m.log, req);
        }
        NextKeeps(m, req, AskingPrivate);
      }
    case VaultSigned =>
      StoredPhase(m.rows, m.log, req);
      NextKeeps(m, req, AskingPublic(stage.vaultPsbt));
  }

  lemma ReserveKeeps(m: Machine, req: Request, period: Text, io: Io)
    requires Core(m.rows, m.log) && Started(m, req)
    ensures Inv(ReserveStep(m, req, period, io))
  {
    hide Core, PhaseOk, RowAt, Consistent, Inv, ReserveTx, AfterReserve, RequestFault;
    match ReserveTx(m.rows, req, period)
    case Err(e) => RefusalKeeps(m, req.key, e);
    case Ok((rows, stage)) =>
      if io == RolledBack {
        RefusalKeeps(m, req.key, DatabaseFailed);
      } else {
        ReserveResult(m.rows, req, period);
        var stored := m.(rows := rows);
        var done := if stage.created then Logged(stored, RowReserved(req.key, req.psbt)) else stored;
        if stage.created {
          CoreReserve(m.rows, m.log, req, period);
        }
        if io == ReplyLost {
          RefusalKeeps(done, req.key, DatabaseFailed);
        } else {
          AfterReserveKeeps(done, req, stage);
        }
      }
  }

  lemma PrivateKeeps(m: Machine, req: Request, answer: Option<Text>)
    requires Core(m.rows, m.log) && Started(m, req) && PhaseOk(m.rows, m.log, req, AskingPrivate)
    ensures Inv(Answered(Logged(m, PrivateAsked(req.key, req.psbt)), req, answer, t => StoringVault(t)))
  {
    hide RowAt, RowOk, PrivateCount, RequestFault;
    ToldStates(m.rows, m.log, req.key);
    var e := PrivateAsked(req.key, req.psbt);
    CoreQuiet(m.rows, m.log, e);
    hide Core;
    var asked := Logged(m, e);
    match answer
    case None => RefusalKeeps(asked, req.key, SignerFailed);
    case Some(t) =>
      if t == "" {
        RefusalKeeps(asked, req.key, EmptyResponse);
      } else {
        NextKeeps(asked, req, StoringVault(t));
      }
  }

  lemma StoreVaultKeeps(m: Machine, req: Request, text: Text, io: Io)
    requires Core(m.rows, m.log) && Started(m, req) && PhaseOk(m.rows, m.log, req, StoringVault(text))
    ensures Inv(StoreVaultStep(m, req, text, io))
  {
    hide Core, RowAt, Inv, StageTx, RequestFault;
    match StageTx(m.rows, req.key, Reserved, text)
    case Err(e) => RefusalKeeps(m, req.key, e);
    case Ok(rows) =>
      if io == RolledBack {
        RefusalKeeps(m, req.key, DatabaseFailed);
      } else {
        CoreStage(m.rows, m.log, req.key, Reserved, text);
        var done := Logged(m.(rows := rows), RowVaultSigned(req.key, text));
        if io == ReplyLost {
          RefusalKeeps(done, req.key, DatabaseFailed);
        } else {
          NextKeeps(done, req, AskingPublic(text));
        }
      }
  }

  lemma PublicKeeps(m: Machine, req: Request, text: Text, signer: Signer)
    requires Core(m.rows, m.log) && Started(m, req) && PhaseOk(m.rows, m.log, req, AskingPublic(text))
    ensures Inv(AskPublicStep(m, req, text, signer))
  {
    hide RowAt, RowOk, PrivateCount, RequestFault, Core, RowTold;
    PublicJustified(m.rows, m.log, req, text);
    var e := PublicAsked(req.key, text);
    CoreQuiet(m.rows, m.log, e);
    var asked := if req.staged then Logged(m, e) else m;
    match if req.staged then signer(text) else Some(text)
    case None => RefusalKeeps(asked, req.key, SignerFailed);
    case Some(t) =>
      if t == "" {
        RefusalKeeps(asked, req.key, EmptyResponse);
      } else {
        NextKeeps(asked, req, StoringSigned(t));
      }
  }

  lemma PublicJustified(rows: seq<Row>, log: seq<Event>, req: Request, text: Text)
    requires Core(rows, log) && PhaseOk(rows, log, req, AskingPublic(text))
    ensures Justified(log, PublicAsked(req.key, text))
  {
    hide RowAt, RowOk, PrivateCount, Ordered, Told, LegacyOnce, RowsOk;
    ToldStates(rows, log, req.key);
  }

  lemma StoreSignedKeeps(m: Machine, req: Request, text: Text, io: Io, cancelled: bool)
    requires Core(m.rows, m.log) && Started(m, req) && PhaseOk(m.rows, m.log, req, StoringSigned(text))
    ensures Inv(StoreSignedStep(m, req, text, io, cancelled))
  {
    hide Core, RowAt, Inv, StageTx, RequestFault;
    match StageTx(m.rows, req.key, VaultSigned, text)
    case Err(e) => RefusalKeeps(m, req.key, e);
    case Ok(rows) =>
      if io == RolledBack {
        RefusalKeeps(m, req.key, DatabaseFailed);
      } else {
        CoreStage(m.rows, m.log, req.key, VaultSigned, text);
        var done := Logged(m.(rows := rows), RowCompleted(req.key, text));
        if io == ReplyLost {
          RefusalKeeps(done, req.key, DatabaseFailed);
        } else {
          EndKeeps(done, req.key, if cancelled then SignedLate(text) else Signed(text, false));
        }
      }
  }

  lemma StepKeeps(m: Machine, a: Action)
    requires Inv(m)
    ensures Inv(Step(m, a))
  {
    hide Core, PhaseOk, ReserveStep, StoreVaultStep, AskPublicStep, StoreSignedStep, Answered, BeginStep, RequestFault;
    match a
    case Begin(req) => BeginKeeps(m, req);
    case Crash =>
    case _ =>
      if m.call.Some? {
        var c := m.call.value;
        CallKeeps(m, c, a);
      }
  }

  lemma CallKeeps(m: Machine, c: Call, a: Action)
    requires Inv(m) && m.call == Some(c)
    ensures Inv(CallStep(m, c, a))
  {
    hide Core, PhaseOk, ReserveStep, StoreVaultStep, AskPublicStep, StoreSignedStep, Answered, BeginStep, RequestFault;
    match a
    case Reserve(period, io) =>
      if c.phase == Reserving {
        ReserveKeeps(m, c.req, period, io);
      }
    case AskPrivate(signer) =>
      if c.phase == AskingPrivate {
        PrivateKeeps(m, c.req, signer(c.req.psbt));
      }
    case StoreVault(io) =>
      if c.phase.StoringVault? {
        StoreVaultKeeps(m, c.req, c.phase.text, io);
      }
    case AskPublic(signer) =>
      if c.phase.AskingPublic? {
        PublicKeeps(m, c.req, c.phase.text, signer);
      }
    case StoreSigned(io, cancelled) =>
      if c.phase.StoringSigned? {
        StoreSignedKeeps(m, c.req, c.phase.text, io, cancelled);
      }
    case _ =>
  }

  lemma FreshInv()
    ensures Inv(Fresh())
  {
  }

  /** Over every run, with any signers, clock, database failures and crashes. */
  lemma {:induction false} RunKeeps(m: Machine, acts: seq<Action>)
    requires Inv(m)
    ensures Inv(Run(m, acts))
    decreases |acts|
  {
    hide Step, Inv;
    if acts != [] {
      StepKeeps(m, acts[0]);
      RunKeeps(Step(m, acts[0]), acts[1..]);
    }
  }

  // ---- rows never lose what they hold ----

  lemma GrowsTransitive(xs: seq<Row>, ys: seq<Row>, zs: seq<Row>)
    requires Grows(xs, ys) && Grows(ys, zs)
    ensures Grows(xs, zs)
  {
  }

  lemma StageGrows(rows: seq<Row>, key: Key, want: RowState, text: Text)
    requires RowsOk(rows) && want != Completed && StageTx(rows, key, want, text).Ok?
    ensures Grows(rows, StageTx(rows, key, want, text).value)
  {
    FindIndex(rows, key);
    var i := Find(rows, key).value;
    assert RowOk(rows[i]);
    hide RowsOk, Find, Consistent;
  }

  lemma ReserveGrows(rows: seq<Row>, r: Request, period: Text)
    requires ReserveTx(rows, r, period).Ok?
    ensures Grows(rows, ReserveTx(rows, r, period).value.0)
  {
    hide ReserveTx, RowAt, Consistent;
    ReserveResult(rows, r, period);
  }

  lemma StepGrows(m: Machine, a: Action)
    requires RowsOk(m.rows)
    ensures Grows(m.rows, Step(m, a).rows) && m.log <= Step(m, a).log
  {
    hide RowsOk, ReserveTx, StageTx, RequestFault, Grows;
    SameGrows(m.rows);
    if m.call.Some? {
      var c := m.call.value;
      if a.Reserve? && ReserveTx(m.rows, c.req, a.period).Ok? {
        ReserveGrows(m.rows, c.req, a.period);
      }
      if c.phase.StoringVault? && StageTx(m.rows, c.req.key, Reserved, c.phase.text).Ok? {
        StageGrows(m.rows, c.req.key, Reserved, c.phase.text);
      }
      if c.phase.StoringSigned? && StageTx(m.rows, c.req.key, VaultSigned, c.phase.text).Ok? {
        StageGrows(m.rows, c.req.key, VaultSigned, c.phase.text);
      }
    }
  }

  /** Between any two points of a run: rows are never removed, keep their charge,
      period and request, move forward only, and keep every stored signature. */
  lemma {:induction false} RunGrows(m: Machine, acts: seq<Action>)
    requires Inv(m)
    ensures Grows(m.rows, Run(m, acts).rows) && m.log <= Run(m, acts).log
    decreases |acts|
  {
    hide Step, Grows, CallOk, Ordered, Told, LegacyOnce;
    if acts == [] {
      SameGrows(m.rows);
    } else {
      var next := Step(m, acts[0]);
      StepKeeps(m, acts[0]);
      StepGrows(m, acts[0]);
      RunGrows(next, acts[1..]);
      GrowsTransitive(m.rows, next.rows, Run(next, acts[1..]).rows);
    }
  }

  lemma SameGrows(rows: seq<Row>)
    ensures Grows(rows, rows)
  {
  }

  // ---- the allowance ----

  lemma SpentOne(rows: seq<Row>, row: Row, vault: Text, period: Text)
    ensures Spent(rows + [row], vault, period) ==
            Spent(rows, vault, period) + if row.key.vault == vault && row.period == period then Outflow(row) else 0
  {
    assert (rows + [row])[..|rows|] == rows;
  }

  lemma {:induction false} SpentUpdated(rows: seq<Row>, i: nat, row: Row, vault: Text, period: Text)
    requires i < |rows| && row.key == rows[i].key && row.period == rows[i].period && Outflow(row) == Outflow(rows[i])
    ensures Spent(rows[i := row], vault, period) == Spent(rows, vault, period)
    decreases |rows|
  {
    var n := |rows| - 1;
    if i < n {
      SpentUpdated(rows[..n], i, row, vault, period);
      assert rows[i := row][..n] == rows[..n][i := row];
    } else {
      assert rows[i := row][..n] == rows[..n];
    }
  }

  /** No vault spends more than the cap in any period. */
  ghost predicate WithinCap(rows: seq<Row>, cap: int) {
    forall vault, period :: Spent(rows, vault, period) <= cap
  }

  lemma StageKeepsSpent(rows: seq<Row>, key: Key, want: RowState, text: Text, cap: int)
    requires WithinCap(rows, cap) && want != Completed && StageTx(rows, key, want, text).Ok?
    ensures WithinCap(StageTx(rows, key, want, text).value, cap)
  {
    FindIndex(rows, key);
    var i := Find(rows, key).value;
    var row := Advanced(rows[i], text);
    var rows' := rows[i := row];
    hide Find, Spent;
    forall vault, period
      ensures Spent(rows', vault, period) <= cap
    {
      SpentUpdated(rows, i, row, vault, period);
    }
  }

  lemma ReserveKeepsCap(rows: seq<Row>, r: Request, period: Text, cap: int)
    requires WithinCap(rows, cap) && r.cap <= cap && ReserveTx(rows, r, period).Ok?
    ensures WithinCap(ReserveTx(rows, r, period).value.0, cap)
  {
    hide ReserveTx, RowAt, Spent, Consistent;
    ReserveResult(rows, r, period);
    var (rows', stage) := ReserveTx(rows, r, period).value;
    if stage.created {
      forall v, p
        ensures Spent(rows', v, p) <= cap
      {
        SpentOne(rows, NewRow(r, period), v, p);
      }
    }
  }

  predicate CapsAtMost(acts: seq<Action>, cap: int) {
    forall i :: 0 <= i < |acts| && acts[i].Begin? ==> acts[i].req.cap <= cap
  }

  predicate CallCap(m: Machine, cap: int) {
    m.call.Some? ==> m.call.value.req.cap <= cap
  }

  lemma StepKeepsCap(m: Machine, a: Action, cap: int)
    requires WithinCap(m.rows, cap) && CallCap(m, cap) && (a.Begin? ==> a.req.cap <= cap)
    ensures WithinCap(Step(m, a).rows, cap) && CallCap(Step(m, a), cap)
  {
    hide WithinCap, ReserveTx, StageTx, RequestFault;
    if m.call.Some? {
      var c := m.call.value;
      if a.Reserve? && ReserveTx(m.rows, c.req, a.period).Ok? {
        ReserveKeepsCap(m.rows, c.req, a.period, cap);
      }
      if c.phase.StoringVault? && StageTx(m.rows, c.req.key, Reserved, c.phase.text).Ok? {
        StageKeepsSpent(m.rows, c.req.key, Reserved, c.phase.text, cap);
      }
      if c.phase.StoringSigned? && StageTx(m.rows, c.req.key, VaultSigned, c.phase.text).Ok? {
        StageKeepsSpent(m.rows, c.req.key, VaultSigned, c.phase.text, cap);
      }
    }
  }

  lemma {:induction false} RunKeepsCap(m: Machine, acts: seq<Action>, cap: int)
    requires WithinCap(m.rows, cap) && CallCap(m, cap) && CapsAtMost(acts, cap)
    ensures WithinCap(Run(m, acts).rows, cap)
    decreases |acts|
  {
    hide Step, WithinCap;
    if acts != [] {
      assert acts[0].Begin? ==> acts[0].req.cap <= cap;
      StepKeepsCap(m, acts[0], cap);
      RunKeepsCap(Step(m, acts[0]), acts[1..], cap);
    }
  }

  lemma {:induction false} SpentNonNegative(rows: seq<Row>, vault: Text, period: Text)
    requires RowsOk(rows)
    ensures Spent(rows, vault, period) >= 0
    decreases |rows|
  {
    hide Consistent;
    if rows != [] {
      assert RowOk(Last(rows));
      SpentNonNegative(rows[..|rows| - 1], vault, period);
    }
  }

  // ---- the main results, from an empty table ----

  /** In every run whose calls agree on a cap, no vault exceeds it in any period,
      and no sum of outflows leaves int64. */
  lemma AllowanceHolds(acts: seq<Action>, cap: nat, vault: Text, period: Text)
    requires CapsAtMost(acts, cap) && cap <= Int64.MAX
    ensures 0 <= Spent(Run(Fresh(), acts).rows, vault, period) <= cap <= Int64.MAX
  {
    FreshInv();
    RunKeeps(Fresh(), acts);
    RunKeepsCap(Fresh(), acts, cap);
    hide Run, Spent, Core, CallOk, CapsAtMost;
    SpentNonNegative(Run(Fresh(), acts).rows, vault, period);
  }

  /** A key is charged once: it has one row, which keeps the amounts and period of
      the reservation that made it through the rest of the run. */
  lemma ChargedOnce(acts: seq<Action>, more: seq<Action>, i: nat, j: nat)
    requires i < |Run(Fresh(), acts).rows|
    requires j < |Run(Run(Fresh(), acts), more).rows|
    requires Run(Fresh(), acts).rows[i].key == Run(Run(Fresh(), acts), more).rows[j].key
    ensures i == j && RowGrows(Run(Fresh(), acts).rows[i], Run(Run(Fresh(), acts), more).rows[j])
  {
    hide Run, CallOk, Ordered, Told, LegacyOnce, RowOk;
    FreshInv();
    RunKeeps(Fresh(), acts);
    RunKeeps(Run(Fresh(), acts), more);
    RunGrows(Run(Fresh(), acts), more);
  }

  /** The history of every run is ordered: the private signer is asked only about a
      stored reservation and never after a vault signature is stored; the public
      signer sees only the stored vault text and is never asked after completion; a
      reply carries the stored signed text; each stage is stored once. */
  lemma HistoryIsOrdered(acts: seq<Action>, i: nat)
    requires i < |Run(Fresh(), acts).log|
    ensures Justified(Run(Fresh(), acts).log[..i], Run(Fresh(), acts).log[i])
  {
    hide Run, CallOk, Told, LegacyOnce, RowsOk, Justified;
    FreshInv();
    RunKeeps(Fresh(), acts);
  }

  /** A key issued through legacy calls alone reaches its signer at most once. */
  lemma LegacySignsOnce(acts: seq<Action>, key: Key)
    requires LegacyOnly(Run(Fresh(), acts).log, key)
    ensures PrivateCount(Run(Fresh(), acts).log, key) <= 1
  {
    hide Run, CallOk, Told, Ordered, RowsOk, PrivateCount;
    FreshInv();
    RunKeeps(Fresh(), acts);
  }

  /** A completed key replays: the exact request gets the stored text back, no
      signer is asked, and nothing is charged. */
  lemma CompletedReplays(m: Machine, req: Request, period: Text)
    requires Inv(m) && m.call.None? && RequestFault(req).None?
    requires RowAt(m.rows, req.key).Some?
    requires var row := RowAt(m.rows, req.key).value;
             && row.state == Completed && row.request == req.psbt
             && row.recipient == req.recipient && row.fee == req.fee
    ensures var after := Run(m, [Begin(req), Reserve(period, Clean)]);
            var signed := Signed(StageOf(RowAt(m.rows, req.key).value).signedPsbt, true);
            && after.rows == m.rows && after.result == Some(signed)
            && after.log == m.log + [Begun(req.key, req.staged), Replied(req.key, signed)]
  {
    ToldStates(m.rows, m.log, req.key);
    FindIndex(m.rows, req.key);
    hide Core, RowTold, Find, Consistent, RequestFault, Spent;
    var begun := Step(m, Begin(req));
    var done := Step(begun, Reserve(period, Clean));
    var acts := [Begin(req), Reserve(period, Clean)];
    assert acts[1..] == [Reserve(period, Clean)] && acts[1..][1..] == [];
    assert Run(m, acts) == Run(begun, acts[1..]) == Run(done, []) == done;
    assert m.log + [Begun(req.key, req.staged)] + [Replied(req.key, done.result.value)]
           == m.log + [Begun(req.key, req.staged), Replied(req.key, done.result.value)];
  }

  // ---- the reply of one call ----

  /** While the call lasts it serves this request; a signed reply is the stored
      signed text of a row bound to this request. */
  predicate Replying(m: Machine, req: Request) {
    if m.call.Some? then m.call.value.req == req
    else m.result.Some? && ReplyStored(m.rows, req, m.result.value)
  }

  predicate ReplyStored(rows: seq<Row>, req: Request, r: IssueResult) {
    !r.Refused? ==>
      var row := RowAt(rows, req.key);
      row.Some? && row.value.request == req.psbt && row.value.signedPsbt == Some(r.text)
  }

  lemma ReserveReplies(m: Machine, req: Request, period: Text, io: Io)
    requires Core(m.rows, m.log)
    ensures Replying(ReserveStep(m, req, period, io), req)
  {
    hide Core, RowAt, Consistent, ReserveTx;
    if ReserveTx(m.rows, req, period).Ok? {
      ReserveResult(m.rows, req, period);
      var (rows, stage) := ReserveTx(m.rows, req, period).value;
      if !stage.created {
        StoredReply(m.rows, m.log, req);
      }
    }
  }

  lemma StoredReply(rows: seq<Row>, log: seq<Event>, req: Request)
    requires Core(rows, log) && RowAt(rows, req.key).Some?
    ensures var row := RowAt(rows, req.key).value;
            row.state == Completed ==> row.signedPsbt == Some(StageOf(row).signedPsbt)
  {
    hide RowAt, Ordered, Told, LegacyOnce, RowsOk, Consistent;
    ToldStates(rows, log, req.key);
  }

  lemma StoreSignedReplies(m: Machine, req: Request, text: Text, io: Io, cancelled: bool)
    requires Core(m.rows, m.log) && PhaseOk(m.rows, m.log, req, StoringSigned(text))
    ensures Replying(StoreSignedStep(m, req, text, io, cancelled), req)
  {
    hide Core, RowAt, StageTx;
    if StageTx(m.rows, req.key, VaultSigned, text).Ok? {
      CoreStage(m.rows, m.log, req.key, VaultSigned, text);
    }
  }

  lemma StepReplies(m: Machine, req: Request, a: Action)
    requires Inv(m) && Replying(m, req) && !a.Begin? && !a.Crash?
    ensures Replying(Step(m, a), req)
  {
    hide Core, RowAt, ReserveStep, StoreSignedStep, RequestFault, StageTx;
    if m.call.Some? {
      match a
      case Reserve(period, io) => ReserveReplies(m, req, period, io);
      case StoreSigned(io, cancelled) =>
        if m.call.value.phase.StoringSigned? {
          StoreSignedReplies(m, req, m.call.value.phase.text, io, cancelled);
        }
      case _ =>
    }
  }

  lemma {:induction false} RunReplies(m: Machine, req: Request, acts: seq<Action>)
    requires Inv(m) && Replying(m, req)
    requires forall i :: 0 <= i < |acts| ==> !acts[i].Begin? && !acts[i].Crash?
    ensures Replying(Run(m, acts), req)
    decreases |acts|
  {
    hide Step, Inv, Replying;
    if acts != [] {
      StepKeeps(m, acts[0]);
      StepReplies(m, req, acts[0]);
      RunReplies(Step(m, acts[0]), req, acts[1..]);
    }
  }
}
