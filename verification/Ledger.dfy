/** The ledger object: its methods, proved to be runs of the issuance machine. */
module Ledgers {
  import opened Common
  import opened Issuance
  import Int64

  type Stored = Result<Stage, IssueError>

  /** What one call meets outside: the clock, the database and the two signers. */
  datatype World = World(
    period: Text, reserveIo: Io, private: Signer, vaultIo: Io, public: Signer, signedIo: Io, cancelled: bool)

  /** The actions of one undisturbed call. */
  function CallActions(req: Request, w: World): seq<Action> {
    [Begin(req), Reserve(w.period, w.reserveIo), AskPrivate(w.private), StoreVault(w.vaultIo),
     AskPublic(w.public), StoreSigned(w.signedIo, w.cancelled)]
  }

  function HexDigit(n: nat): char
    requires n < 16
  {
    "0123456789abcdef"[n]
  }

  function Hex(b: Bytes): Text {
    if b == [] then "" else [HexDigit(b[0] as nat / 16), HexDigit(b[0] as nat % 16)] + Hex(b[1..])
  }

  /** Two digits for each byte, the high one first. */
  lemma {:induction false} HexDigits(b: Bytes, i: nat)
    requires i < |b|
    ensures |Hex(b)| == 2 * |b|
    ensures Hex(b)[2 * i] == "0123456789abcdef"[b[i] as nat / 16]
    ensures Hex(b)[2 * i + 1] == "0123456789abcdef"[b[i] as nat % 16]
  {
    if |b| > 1 {
      HexDigits(b[1..], if i > 0 then i - 1 else 0);
      assert Hex(b)[2..] == Hex(b[1..]);
      if i > 0 {
        assert Hex(b)[2 * i] == Hex(b[1..])[2 * (i - 1)] && Hex(b)[2 * i + 1] == Hex(b[1..])[2 * (i - 1) + 1];
      }
    } else {
      assert b[1..] == [];
    }
  }

  function LegacyRequest(key: Key, recipient: Int64.int64, fee: Int64.int64, cap: Int64.int64): Request {
    Request(key, LEGACY_PREFIX + Hex(key.digest), recipient, fee, cap, false)
  }

  class Ledger {
    var rows: seq<Row>
    ghost var log: seq<Event>
    ghost var result: Option<IssueResult>

    constructor ()
      ensures Now() == Fresh()
    {
      rows, log, result := [], [], None;
    }

    /** Between calls no call is in progress: the mutex is free. */
    ghost function Now(): Machine
      reads this
    {
      Machine(rows, None, log, result)
    }

    /** The machine while a call is in progress. */
    ghost function During(req: Request, phase: Phase): Machine
      reads this
    {
      Machine(rows, Some(Call(req, phase)), log, result)
    }

    method FindRow(key: Key) returns (r: Option<nat>)
      ensures r == Find(rows, key)
    {
      for i := 0 to |rows|
        invariant forall j :: 0 <= j < i ==> rows[j].key != key
      {
        if rows[i].key == key {
          FoundAt(rows, key, i);
          return Some(i);
        }
      }
      NotFound(rows, key);
      return None;
    }

    /** SpentInPeriod, and the sum inside a reservation. */
    method SpentInPeriod(vault: Text, period: Text) returns (n: int)
      ensures n == Spent(rows, vault, period)
    {
      n := 0;
      for i := 0 to |rows|
        invariant n == Spent(rows[..i], vault, period)
      {
        assert rows[..i + 1][..i] == rows[..i];
        if rows[i].key.vault == vault && rows[i].period == period {
          n := n + rows[i].recipient + rows[i].fee;
        }
      }
      assert rows[..|rows|] == rows;
    }

    /** The stored signed text of a completed key. */
    method CompletedText(key: Key) returns (r: Option<Text>)
      ensures r == match Find(rows, key)
                   case None => None
                   case Some(i) => if i < |rows| && rows[i].state == Completed then rows[i].signedPsbt else None
    {
      var found := FindRow(key);
      FindIndex(rows, key);
      if found.None? || rows[found.value].state != Completed {
        return None;
      }
      return rows[found.value].signedPsbt;
    }

    /** One atomic transaction: look the key up, or charge it. */
    method CommitReservation(req: Request, period: Text, io: Io) returns (r: Stored)
      modifies `rows
      ensures match ReserveTx(old(rows), req, period)
              case Err(e) => r == Err(e) && rows == old(rows)
              case Ok((rows', stage)) =>
                match io
                case RolledBack => r == Err(DatabaseFailed) && rows == old(rows)
                case ReplyLost => r == Err(DatabaseFailed) && rows == rows'
                case Clean => r == Ok(stage) && rows == rows'
    {
      hide Consistent;
      var found := FindRow(req.key);
      FindIndex(rows, req.key);
      if found.Some? {
        var row := rows[found.value];
        if row.request != req.psbt || row.recipient != req.recipient || row.fee != req.fee {
          return Err(BoundDifferently);
        }
        var stage := StageOf(row);
        if !Consistent(stage) {
          return Err(Inconsistent);
        }
        if io != Clean {
          return Err(DatabaseFailed);
        }
        return Ok(stage);
      }
      var used := SpentInPeriod(req.key.vault, period);
      if used < 0 || used > Int64.MAX {
        return Err(DatabaseFailed);
      }
      var need := AddOutflow(req.recipient, req.fee);
      if need.Err? {
        return Err(need.error);
      }
      if used > req.cap {
        return Err(AllowanceExceeded);
      }
      if need.value > req.cap - used {
        return Err(AllowanceExceeded);
      }
      if io == RolledBack {
        return Err(DatabaseFailed);
      }
      rows := rows + [NewRow(req, period)];
      if io == ReplyLost {
        return Err(DatabaseFailed);
      }
      return Ok(Stage(Reserved, req.psbt, "", "", true));
    }

    /** One atomic update of the row in the wanted state. */
    method CommitSigningStage(key: Key, want: RowState, text: Text, io: Io) returns (e: Option<IssueError>)
      requires want != Completed
      modifies `rows
      ensures match StageTx(old(rows), key, want, text)
              case Err(fault) => e == Some(fault) && rows == old(rows)
              case Ok(rows') =>
                match io
                case RolledBack => e == Some(DatabaseFailed) && rows == old(rows)
                case ReplyLost => e == Some(DatabaseFailed) && rows == rows'
                case Clean => e == None && rows == rows'
    {
      var found := FindRow(key);
      FindIndex(rows, key);
      if found.None? || rows[found.value].state != want {
        return Some(InvalidState);
      }
      if io == RolledBack {
        return Some(DatabaseFailed);
      }
      var i := found.value;
      if want == Reserved {
        rows := rows[i := rows[i].(state := VaultSigned, vaultPsbt := Some(text))];
      } else {
        rows := rows[i := rows[i].(state := Completed, signedPsbt := Some(text))];
      }
      if io == ReplyLost {
        return Some(DatabaseFailed);
      }
      return None;
    }

    ghost method Note(e: Event)
      modifies `log
      ensures log == old(log) + [e]
    {
      log := log + [e];
    }

    /** Ends the call in progress. */
    ghost method Finish(key: Key, r: IssueResult)
      modifies `log, `result
      ensures log == old(log) + [Replied(key, r)] && result == Some(r)
    {
      log := log + [Replied(key, r)];
      result := Some(r);
    }

    /** issueSequential: under the mutex, reserve, sign, store, sign, store. */
    method IssueInStages(req: Request, w: World) returns (r: IssueResult)
      modifies this
      ensures Now() == Run(old(Now()), CallActions(req, w)) && result == Some(r)
    {
      hide RequestFault, ReserveTx, StageTx, Consistent, Run, FromPublic, FromPrivate, Find, Spent, StageOf;
      ghost var m0 := Now();
      CallIs(m0, req, w);
      var fault := RequestFault(req);
      if fault.Some? {
        r := Refused(fault.value);
        result := Some(r);
        EndedStays(Now(), w);
        return;
      }
      Note(Begun(req.key, req.staged));
      ghost var m1 := During(req, Reserving);

      var reserved := CommitReservation(req, w.period, w.reserveIo);
      ghost var m2 := Step(m1, Reserve(w.period, w.reserveIo));
      ReserveShape(m1.rows, req, w.period);
      if rows != m1.rows {
        Note(RowReserved(req.key, req.psbt));
      }
      if reserved.Err? {
        r := Refused(reserved.error);
        Finish(req.key, r);
        EndedStays(m2, w);
        return;
      }
      var stage := reserved.value;
      if stage.state == Completed {
        r := Signed(stage.signedPsbt, true);
        Finish(req.key, r);
        EndedStays(m2, w);
        return;
      }
      var vaultPsbt := stage.vaultPsbt;
      if stage.state == Reserved {
        if !stage.created && !req.staged {
          r := Refused(AmbiguousAttempt);
          Finish(req.key, r);
          EndedStays(m2, w);
          return;
        }
        assert m2 == During(req, AskingPrivate);
        r, vaultPsbt := AskVault(req, w, m2);
        if r.Refused? {
          return;
        }
      } else {
        assert m2 == During(req, AskingPublic(vaultPsbt));
        PrivateSkipped(m2, req, vaultPsbt, w);
      }
      r := AskArkade(req, w, vaultPsbt);
    }

    /** The private stage: ask, then store the answer. A reply of Signed stands for
        a stored vault signature. */
    method AskVault(req: Request, w: World, ghost m2: Machine) returns (r: IssueResult, text: Text)
      requires m2 == During(req, AskingPrivate)
      modifies this
      ensures !r.SignedLate?
      ensures r.Refused? ==> Now() == FromPrivate(m2, w) && result == Some(r)
      ensures r.Signed? ==> FromPublic(During(req, AskingPublic(text)), w) == FromPrivate(m2, w)
    {
      hide StageTx, FromPublic, Find;
      Note(PrivateAsked(req.key, req.psbt));
      var answer := w.private(req.psbt);
      text := OrEmpty(answer);
      if answer.None? || text == "" {
        r := Refused(if answer.None? then SignerFailed else EmptyResponse);
        Finish(req.key, r);
        EndedStays(Now(), w);
        return;
      }
      ghost var m3 := During(req, StoringVault(text));
      var fault := CommitSigningStage(req.key, Reserved, text, w.vaultIo);
      StageMoves(m3.rows, req.key, Reserved, text);
      if rows != m3.rows {
        Note(RowVaultSigned(req.key, text));
      }
      if fault.Some? {
        r := Refused(fault.value);
        Finish(req.key, r);
        EndedStays(Now(), w);
        return;
      }
      r := Signed(text, false);
    }

    /** The public stage: ask, then store the completion. */
    method AskArkade(req: Request, w: World, text: Text) returns (r: IssueResult)
      modifies this
      ensures Now() == FromPublic(old(During(req, AskingPublic(text))), w) && result == Some(r)
    {
      hide StageTx, Find;
      var answer: Option<Text> := Some(text);
      if req.staged {
        Note(PublicAsked(req.key, text));
        answer := w.public(text);
      }
      var signed := OrEmpty(answer);
      if answer.None? || signed == "" {
        r := Refused(if answer.None? then SignerFailed else EmptyResponse);
        Finish(req.key, r);
        return;
      }
      ghost var m3 := During(req, StoringSigned(signed));
      var fault := CommitSigningStage(req.key, VaultSigned, signed, w.signedIo);
      StageMoves(m3.rows, req.key, VaultSigned, signed);
      if rows != m3.rows {
        Note(RowCompleted(req.key, signed));
      }
      if fault.Some? {
        r := Refused(fault.value);
        Finish(req.key, r);
        return;
      }
      r := if w.cancelled then SignedLate(signed) else Signed(signed, false);
      Finish(req.key, r);
    }

    /** IssueSequential. */
    method IssueSequential(req: Request, w: World) returns (r: IssueResult)
      requires req.staged
      modifies this
      ensures Now() == Run(old(Now()), CallActions(req, w)) && result == Some(r)
    {
      r := IssueInStages(req, w);
    }

    /** Issue: one external signer, whose answer is also the completion. */
    method Issue(key: Key, recipient: Int64.int64, fee: Int64.int64, cap: Int64.int64, w: World)
      returns (r: IssueResult)
      modifies this
      ensures Now() == Run(old(Now()), CallActions(LegacyRequest(key, recipient, fee, cap), w))
      ensures result == Some(r)
    {
      r := IssueInStages(LegacyRequest(key, recipient, fee, cap), w);
    }
  }

  // ---- a call as its six steps ----

  function FromPublic(m: Machine, w: World): Machine {
    Step(Step(m, AskPublic(w.public)), StoreSigned(w.signedIo, w.cancelled))
  }

  function FromPrivate(m: Machine, w: World): Machine {
    FromPublic(Step(Step(m, AskPrivate(w.private)), StoreVault(w.vaultIo)), w)
  }

  lemma CallIs(m: Machine, req: Request, w: World)
    ensures Run(m, CallActions(req, w)) == FromPrivate(Step(Step(m, Begin(req)), Reserve(w.period, w.reserveIo)), w)
  {
    hide Step;
    var acts := CallActions(req, w);
    RunTwo(m, acts);
    var m2, rest := Step(Step(m, acts[0]), acts[1]), acts[2..];
    RunTwo(m2, rest);
    var m4, last := Step(Step(m2, rest[0]), rest[1]), rest[2..];
    RunTwo(m4, last);
  }

  lemma RunTwo(m: Machine, acts: seq<Action>)
    requires |acts| >= 2
    ensures Run(m, acts) == Run(Step(Step(m, acts[0]), acts[1]), acts[2..])
  {
    hide Step;
    assert acts[1..][1..] == acts[2..];
  }

  /** A call that has ended does nothing more. */
  lemma EndedStays(m: Machine, w: World)
    requires m.call.None?
    ensures FromPublic(m, w) == m && FromPrivate(m, w) == m
  {
  }

  lemma PrivateSkipped(m: Machine, req: Request, text: Text, w: World)
    requires m.call == Some(Call(req, AskingPublic(text)))
    ensures FromPrivate(m, w) == FromPublic(m, w)
  {
  }

  /** A reservation changes the rows exactly when it made one. */
  lemma ReserveShape(rows: seq<Row>, r: Request, period: Text)
    ensures ReserveTx(rows, r, period).Ok? ==>
              var (rows', stage) := ReserveTx(rows, r, period).value;
              && (stage.created <==> rows' != rows)
              && (stage.created ==> stage.state == Reserved)
  {
    FindIndex(rows, r.key);
    hide Spent, Consistent;
    if Find(rows, r.key).None? {
      assert |rows + [NewRow(r, period)]| == |rows| + 1;
    }
  }

  /** A stored stage always changes the rows. */
  lemma StageMoves(rows: seq<Row>, key: Key, want: RowState, text: Text)
    requires want != Completed
    ensures StageTx(rows, key, want, text).Ok? ==> StageTx(rows, key, want, text).value != rows
  {
    FindIndex(rows, key);
    if StageTx(rows, key, want, text).Ok? {
      var i := Find(rows, key).value;
      assert StageTx(rows, key, want, text).value[i].state != rows[i].state;
    }
  }

  lemma {:induction false} FoundAt(rows: seq<Row>, key: Key, k: nat)
    requires k < |rows| && rows[k].key == key && forall i :: 0 <= i < k ==> rows[i].key != key
    ensures Find(rows, key) == Some(k)
  {
    if k > 0 {
      FoundAt(rows[1..], key, k - 1);
    }
  }

  lemma {:induction false} NotFound(rows: seq<Row>, key: Key)
    requires forall i :: 0 <= i < |rows| ==> rows[i].key != key
    ensures Find(rows, key) == None
  {
    if rows != [] {
      NotFound(rows[1..], key);
    }
  }
}
