/** What a clean call achieves, from every state a crash can leave behind: a bound
    request is always brought to its end. */
module IssuanceProgress {
  import opened Common
  import opened Issuance
  import opened IssuanceProofs
  import opened Ledgers
  import Int64

  // ---- the outside of a clean call ----

  /** Transactions commit and reply, and nobody cancels. */
  predicate CleanWorld(w: World) {
    w.reserveIo == Clean && w.vaultIo == Clean && w.signedIo == Clean && !w.cancelled
  }

  /** The stored row serves exactly this request. */
  predicate BoundTo(row: Row, req: Request) {
    row.key == req.key && row.request == req.psbt && row.recipient == req.recipient && row.fee == req.fee
  }

  /** No call is in progress, and the request is well formed. */
  ghost predicate Ready(m: Machine, req: Request) {
    Inv(m) && m.call.None? && RequestFault(req).None?
  }

  /** Only this key's row changed, to the given one. */
  ghost predicate OnlyRow(rows: seq<Row>, rows': seq<Row>, key: Key, row: Row) {
    && RowAt(rows', key) == Some(row)
    && forall k :: k != key ==> RowAt(rows', k) == RowAt(rows, k)
  }

  // ---- single steps ----

  lemma BeginStarts(m: Machine, req: Request)
    requires m.call.None? && RequestFault(req).None?
    ensures Step(m, Begin(req)) ==
            Machine(m.rows, Some(Call(req, Reserving)), m.log + [Begun(req.key, req.staged)], m.result)
  {
    hide RequestFault;
  }

  lemma StoredRow(m: Machine, key: Key)
    requires Inv(m) && RowAt(m.rows, key).Some?
    ensures var i := Find(m.rows, key);
            && i.Some? && i.value < |m.rows| && m.rows[i.value] == RowAt(m.rows, key).value
            && RowOk(m.rows[i.value]) && m.rows[i.value].key == key
  {
    FindIndex(m.rows, key);
    hide Find, RowOk, Ordered, Told, LegacyOnce, CallOk;
  }

  /** A reservation that finds the row bound to the request. */
  lemma FoundReserved(m: Machine, req: Request, period: Text, row: Row)
    requires Inv(m) && RowAt(m.rows, req.key) == Some(row) && BoundTo(row, req)
    ensures ReserveTx(m.rows, req, period) == Ok((m.rows, StageOf(row)))
    ensures row.state == VaultSigned ==> row.vaultPsbt.Some? && StageOf(row).vaultPsbt == row.vaultPsbt.value != ""
    ensures row.state == Completed ==> row.signedPsbt.Some? && StageOf(row).signedPsbt == row.signedPsbt.value
  {
    hide Inv, RowAt;
    StoredRow(m, req.key);
  }

  lemma StoreRow(rows: seq<Row>, key: Key, row: Row, text: Text)
    requires RowsOk(rows) && RowAt(rows, key) == Some(row) && row.state != Completed
    ensures StageTx(rows, key, row.state, text).Ok?
    ensures row.key == key
    ensures OnlyRow(rows, StageTx(rows, key, row.state, text).value, key, Advanced(row, text))
    ensures RowAt(StageTx(rows, key, row.state, text).value, key) == Some(Advanced(row, text))
  {
    FindIndex(rows, key);
    var i := Find(rows, key).value;
    hide RowsOk;
    forall k
      ensures RowAt(rows[i := Advanced(row, text)], k) == if k == key then Some(Advanced(row, text)) else RowAt(rows, k)
    {
      RowUpdated(rows, i, Advanced(row, text), k);
    }
  }

  // ---- from the private question to the end ----

  /** The row with both signatures. */
  function Finished(row: Row, a: Text, b: Text): Row {
    row.(state := Completed, vaultPsbt := Some(a), signedPsbt := Some(b))
  }

  /** The public half of a clean staged call. */
  lemma PublicHalf(m: Machine, req: Request, w: World, row: Row, a: Text, b: Text)
    requires CleanWorld(w) && req.staged && RowsOk(m.rows)
    requires m.call == Some(Call(req, AskingPublic(a)))
    requires RowAt(m.rows, req.key) == Some(row) && row.state == VaultSigned && row.vaultPsbt == Some(a)
    requires w.public(a) == Some(b) && b != ""
    ensures var after := FromPublic(m, w);
            && OnlyRow(m.rows, after.rows, req.key, Finished(row, a, b))
            && after.call.None? && after.result == Some(Signed(b, false))
            && after.log == m.log + [PublicAsked(req.key, a), RowCompleted(req.key, b),
                                     Replied(req.key, Signed(b, false))]
  {
    StoreRow(m.rows, req.key, row, b);
    hide RowAt, StageTx, RowsOk, OnlyRow;
    var asked := Step(m, AskPublic(w.public));
    assert asked == Machine(m.rows, Some(Call(req, StoringSigned(b))), m.log + [PublicAsked(req.key, a)], m.result);
  }

  /** The whole of a clean staged call, once the private question is due. */
  lemma PrivateHalf(m: Machine, req: Request, w: World, row: Row, a: Text, b: Text)
    requires CleanWorld(w) && req.staged && RowsOk(m.rows)
    requires m.call == Some(Call(req, AskingPrivate))
    requires RowAt(m.rows, req.key) == Some(row) && row.state == Reserved
    requires w.private(req.psbt) == Some(a) && a != "" && w.public(a) == Some(b) && b != ""
    ensures var after := FromPrivate(m, w);
            && OnlyRow(m.rows, after.rows, req.key, Finished(row, a, b))
            && after.call.None? && after.result == Some(Signed(b, false))
            && after.log == m.log + [PrivateAsked(req.key, req.psbt), RowVaultSigned(req.key, a),
                                     PublicAsked(req.key, a), RowCompleted(req.key, b),
                                     Replied(req.key, Signed(b, false))]
  {
    hide RowAt, StageTx, RowsOk, Ordered, Told, LegacyOnce, FromPublic, OnlyRow, CleanWorld;
    var stored := Step(Step(m, AskPrivate(w.private)), StoreVault(w.vaultIo));
    var signed := row.(state := VaultSigned, vaultPsbt := Some(a));
    FirstStored(m, req, w, row, a);
    PublicHalf(stored, req, w, signed, a, b);
    SameElsewhere(m.rows, stored.rows, FromPublic(stored, w).rows, req.key, signed, Finished(row, a, b));
    var l1, l2 := PrivateAsked(req.key, req.psbt), RowVaultSigned(req.key, a);
    Assoc(m.log, [l1, l2], [PublicAsked(req.key, a), RowCompleted(req.key, b), Replied(req.key, Signed(b, false))]);
  }

  /** Asking the private signer and storing its answer. */
  lemma FirstStored(m: Machine, req: Request, w: World, row: Row, a: Text)
    requires CleanWorld(w) && RowsOk(m.rows)
    requires m.call == Some(Call(req, AskingPrivate))
    requires RowAt(m.rows, req.key) == Some(row) && row.state == Reserved
    requires w.private(req.psbt) == Some(a) && a != ""
    ensures var stored := Step(Step(m, AskPrivate(w.private)), StoreVault(w.vaultIo));
            var signed := row.(state := VaultSigned, vaultPsbt := Some(a));
            && stored.call == Some(Call(req, AskingPublic(a))) && RowsOk(stored.rows)
            && OnlyRow(m.rows, stored.rows, req.key, signed) && RowAt(stored.rows, req.key) == Some(signed)
            && stored.log == m.log + [PrivateAsked(req.key, req.psbt), RowVaultSigned(req.key, a)]
  {
    hide RowAt, StageTx, RowsOk;
    StoreRow(m.rows, req.key, row, a);
    StoreKeeps(m.rows, req.key, row, a);
    hide OnlyRow;
    var asked := Step(m, AskPrivate(w.private));
    assert asked ==
           Machine(m.rows, Some(Call(req, StoringVault(a))), m.log + [PrivateAsked(req.key, req.psbt)], m.result);
  }

  lemma StoreKeeps(rows: seq<Row>, key: Key, row: Row, a: Text)
    requires RowsOk(rows) && RowAt(rows, key) == Some(row) && row.state == Reserved && a != ""
    requires StageTx(rows, key, Reserved, a).Ok?
    ensures RowsOk(StageTx(rows, key, Reserved, a).value)
  {
    FindIndex(rows, key);
    StagedOk(rows, Find(rows, key).value, a);
    hide RowsOk;
  }

  // ---- main results: a bound request always completes ----

  /** A reservation left behind by a crash is resumed: the private signer is asked
      about the stored request, the public one about its answer, and the row is
      completed. */
  lemma ReservedCompletes(m: Machine, req: Request, w: World, row: Row, a: Text, b: Text)
    requires Ready(m, req) && req.staged && CleanWorld(w)
    requires RowAt(m.rows, req.key) == Some(row) && BoundTo(row, req) && row.state == Reserved
    requires w.private(req.psbt) == Some(a) && a != "" && w.public(a) == Some(b) && b != ""
    ensures var after := Run(m, CallActions(req, w));
            && OnlyRow(m.rows, after.rows, req.key,
                       row.(state := Completed, vaultPsbt := Some(a), signedPsbt := Some(b)))
            && after.call.None? && after.result == Some(Signed(b, false))
            && after.log == m.log + [Begun(req.key, true), PrivateAsked(req.key, req.psbt), RowVaultSigned(req.key, a),
                                     PublicAsked(req.key, a), RowCompleted(req.key, b),
                                     Replied(req.key, Signed(b, false))]
  {
    hide Run, RequestFault, ReserveTx, RowAt, Core, FromPrivate, OnlyRow;
    CallIs(m, req, w);
    BeginStarts(m, req);
    FoundReserved(m, req, w.period, row);
    var begun := Step(m, Begin(req));
    StepKeeps(m, Begin(req));
    var reserved := Step(begun, Reserve(w.period, w.reserveIo));
    assert reserved == begun.(call := Some(Call(req, AskingPrivate)));
    StepKeeps(begun, Reserve(w.period, w.reserveIo));
    CoreRowsOk(reserved);
    PrivateHalf(reserved, req, w, row, a, b);
  }

  /** After a stored vault signature only the public signer is asked. */
  lemma VaultSignedCompletes(m: Machine, req: Request, w: World, row: Row, a: Text, b: Text)
    requires Ready(m, req) && req.staged && CleanWorld(w)
    requires RowAt(m.rows, req.key) == Some(row) && BoundTo(row, req) && row.state == VaultSigned
    requires row.vaultPsbt == Some(a) && w.public(a) == Some(b) && b != ""
    ensures var after := Run(m, CallActions(req, w));
            && OnlyRow(m.rows, after.rows, req.key, row.(state := Completed, signedPsbt := Some(b)))
            && after.call.None? && after.result == Some(Signed(b, false))
            && after.log == m.log + [Begun(req.key, true), PublicAsked(req.key, a), RowCompleted(req.key, b),
                                     Replied(req.key, Signed(b, false))]
  {
    hide Run, RequestFault, ReserveTx, RowAt, Core, FromPrivate, FromPublic, OnlyRow;
    CallIs(m, req, w);
    BeginStarts(m, req);
    FoundReserved(m, req, w.period, row);
    var begun := Step(m, Begin(req));
    StepKeeps(m, Begin(req));
    var reserved := Step(begun, Reserve(w.period, w.reserveIo));
    assert reserved == begun.(call := Some(Call(req, AskingPublic(a))));
    CoreRowsOk(m);
    PrivateSkipped(reserved, req, a, w);
    PublicHalf(reserved, req, w, row, a, b);
  }

  lemma CoreRowsOk(m: Machine)
    requires Inv(m)
    ensures RowsOk(m.rows)
  {
    hide RowsOk, Ordered, Told, LegacyOnce, CallOk;
  }

  /** A new request within the allowance is charged once and completed. */
  lemma NewCompletes(m: Machine, req: Request, w: World, a: Text, b: Text)
    requires Ready(m, req) && req.staged && CleanWorld(w) && RowAt(m.rows, req.key).None?
    requires Spent(m.rows, req.key.vault, w.period) + req.recipient + req.fee <= req.cap
    requires w.private(req.psbt) == Some(a) && a != "" && w.public(a) == Some(b) && b != ""
    ensures var after := Run(m, CallActions(req, w));
            && OnlyRow(m.rows, after.rows, req.key,
                       Row(req.key, w.period, req.recipient, req.fee, Completed, req.psbt, Some(a), Some(b)))
            && after.call.None? && after.result == Some(Signed(b, false))
            && after.log == m.log + [Begun(req.key, true), RowReserved(req.key, req.psbt),
                                     PrivateAsked(req.key, req.psbt), RowVaultSigned(req.key, a),
                                     PublicAsked(req.key, a), RowCompleted(req.key, b),
                                     Replied(req.key, Signed(b, false))]
  {
    hide Run, RequestFault, ReserveTx, RowAt, Core, FromPrivate, OnlyRow, Spent, CleanWorld;
    CallIs(m, req, w);
    var begun := Step(m, Begin(req));
    var reserved := Step(begun, Reserve(w.period, w.reserveIo));
    StepKeeps(m, Begin(req));
    StepKeeps(begun, Reserve(w.period, w.reserveIo));
    var row := NewRow(req, w.period);
    NewReserved(m, req, w);
    NewRowOnly(m.rows, row);
    CoreRowsOk(reserved);
    PrivateHalf(reserved, req, w, row, a, b);
    SameElsewhere(m.rows, reserved.rows, FromPrivate(reserved, w).rows, req.key, row, Finished(row, a, b));
    Assoc(m.log, [Begun(req.key, true), RowReserved(req.key, req.psbt)],
          [PrivateAsked(req.key, req.psbt), RowVaultSigned(req.key, a), PublicAsked(req.key, a),
           RowCompleted(req.key, b), Replied(req.key, Signed(b, false))]);
  }

  lemma NewReserved(m: Machine, req: Request, w: World)
    requires Ready(m, req) && CleanWorld(w) && RowAt(m.rows, req.key).None?
    requires Spent(m.rows, req.key.vault, w.period) + req.recipient + req.fee <= req.cap
    ensures Step(Step(m, Begin(req)), Reserve(w.period, w.reserveIo)) ==
            Machine(m.rows + [NewRow(req, w.period)], Some(Call(req, AskingPrivate)),
                    m.log + [Begun(req.key, req.staged), RowReserved(req.key, req.psbt)], m.result)
  {
    hide RequestFault, ReserveTx, RowAt, Core, Spent;
    CoreRowsOk(m);
    BeginStarts(m, req);
    Admitted(m, req, w.period);
    assert m.log + [Begun(req.key, req.staged)] + [RowReserved(req.key, req.psbt)]
           == m.log + [Begun(req.key, req.staged), RowReserved(req.key, req.psbt)];
  }

  lemma NewRowOnly(rows: seq<Row>, row: Row)
    requires RowAt(rows, row.key).None?
    ensures OnlyRow(rows, rows + [row], row.key, row) && RowAt(rows + [row], row.key) == Some(row)
  {
    forall k
      ensures RowAt(rows + [row], k) == if k == row.key then Some(row) else RowAt(rows, k)
    {
      RowAppended(rows, row, k);
      FindIndex(rows, k);
    }
    hide RowAt;
  }

  lemma SameElsewhere(xs: seq<Row>, ys: seq<Row>, zs: seq<Row>, key: Key, row: Row, row': Row)
    requires OnlyRow(xs, ys, key, row) && OnlyRow(ys, zs, key, row')
    ensures OnlyRow(xs, zs, key, row')
  {
    hide RowAt;
  }

  // ---- the allowance decides, and nothing else ----

  /** What a vault has spent in a period counts recipient and fee of each of its rows
      of that period, whatever their state, and no other row. */
  lemma SpentCounts(rows: seq<Row>, row: Row, vault: Text, period: Text)
    ensures Spent([], vault, period) == 0
    ensures Spent(rows + [row], vault, period) ==
            Spent(rows, vault, period)
            + if row.key.vault == vault && row.period == period then row.recipient + row.fee else 0
  {
    SpentOne(rows, row, vault, period);
  }

  lemma Admitted(m: Machine, req: Request, period: Text)
    requires RowsOk(m.rows) && RequestFault(req).None? && RowAt(m.rows, req.key).None?
    requires Spent(m.rows, req.key.vault, period) + req.recipient + req.fee <= req.cap
    ensures ReserveTx(m.rows, req, period) ==
            Ok((m.rows + [NewRow(req, period)], Stage(Reserved, req.psbt, "", "", true)))
  {
    SpentNonNegative(m.rows, req.key.vault, period);
    hide Spent, RowsOk;
    FindIndex(m.rows, req.key);
  }

  /** A new request is stored exactly when what the vault has spent in the period
      and what the request spends stay within the cap; otherwise it is refused for
      that reason, and nobody is asked or charged. */
  lemma AllowanceDecides(m: Machine, req: Request, period: Text)
    requires Ready(m, req) && RowAt(m.rows, req.key).None?
    requires Spent(m.rows, req.key.vault, period) <= Int64.MAX && req.recipient + req.fee <= Int64.MAX
    ensures var after := Run(m, [Begin(req), Reserve(period, Clean)]);
            var fits := Spent(m.rows, req.key.vault, period) + req.recipient + req.fee <= req.cap;
            && (fits ==>
                  && after.rows ==
                     m.rows + [Row(req.key, period, req.recipient, req.fee, Reserved, req.psbt, None, None)]
                  && after.call.Some?)
            && (!fits ==>
                  && after.rows == m.rows && after.result == Some(Refused(AllowanceExceeded))
                  && after.log == m.log + [Begun(req.key, req.staged), Replied(req.key, Refused(AllowanceExceeded))])
  {
    hide Run, Spent, ReserveTx, RowAt, RowsOk, Inv, RequestFault;
    CoreRowsOk(m);
    BeginStarts(m, req);
    RunBoth(m, Begin(req), Reserve(period, Clean));
    if Spent(m.rows, req.key.vault, period) + req.recipient + req.fee <= req.cap {
      Admitted(m, req, period);
    } else {
      Exceeded(m, req, period);
      assert m.log + [Begun(req.key, req.staged)] + [Replied(req.key, Refused(AllowanceExceeded))]
             == m.log + [Begun(req.key, req.staged), Replied(req.key, Refused(AllowanceExceeded))];
    }
  }

  lemma Exceeded(m: Machine, req: Request, period: Text)
    requires RowsOk(m.rows) && RequestFault(req).None? && RowAt(m.rows, req.key).None?
    requires Spent(m.rows, req.key.vault, period) <= Int64.MAX && req.recipient + req.fee <= Int64.MAX
    requires Spent(m.rows, req.key.vault, period) + req.recipient + req.fee > req.cap
    ensures ReserveTx(m.rows, req, period) == Err(AllowanceExceeded)
  {
    SpentNonNegative(m.rows, req.key.vault, period);
    hide Spent, RowsOk;
    FindIndex(m.rows, req.key);
  }

  lemma RunBoth(m: Machine, a: Action, b: Action)
    ensures Run(m, [a, b]) == Step(Step(m, a), b)
  {
    hide Step;
    RunTwo(m, [a, b]);
    assert [a, b][2..] == [];
  }

  // ---- calls that must not go on ----

  /** A row bound to another packet or other amounts refuses the call: no row
      changes and nobody is asked. */
  lemma OtherRequestRefused(m: Machine, req: Request, w: World, row: Row)
    requires Ready(m, req) && RowAt(m.rows, req.key) == Some(row)
    requires row.request != req.psbt || row.recipient != req.recipient || row.fee != req.fee
    ensures var after := Run(m, CallActions(req, w));
            && after.rows == m.rows && after.result == Some(Refused(BoundDifferently))
            && after.log == m.log + [Begun(req.key, req.staged), Replied(req.key, Refused(BoundDifferently))]
  {
    hide Run, RequestFault, RowAt, Core, FromPrivate, RowOk, Consistent;
    CallIs(m, req, w);
    BeginStarts(m, req);
    StoredRow(m, req.key);
    var reserved := Step(Step(m, Begin(req)), Reserve(w.period, w.reserveIo));
    assert ReserveTx(m.rows, req, w.period) == Err(BoundDifferently);
    EndedStays(reserved, w);
  }

  /** A legacy call never takes up a reservation again. */
  lemma LegacyAttemptRefused(m: Machine, req: Request, w: World, row: Row)
    requires Ready(m, req) && !req.staged && w.reserveIo == Clean
    requires RowAt(m.rows, req.key) == Some(row) && BoundTo(row, req) && row.state == Reserved
    ensures var after := Run(m, CallActions(req, w));
            && after.rows == m.rows && after.result == Some(Refused(AmbiguousAttempt))
            && after.log == m.log + [Begun(req.key, false), Replied(req.key, Refused(AmbiguousAttempt))]
  {
    hide Run, RequestFault, RowAt, Core, FromPrivate, ReserveTx;
    CallIs(m, req, w);
    BeginStarts(m, req);
    FoundReserved(m, req, w.period, row);
    EndedStays(Step(Step(m, Begin(req)), Reserve(w.period, w.reserveIo)), w);
  }

  /** A malformed request is refused before anything happens. */
  lemma FaultRefused(m: Machine, req: Request, w: World)
    requires m.call.None?
    requires req.key.vault == "" || |req.key.digest| != 32 || req.psbt == ""
             || req.recipient <= 0 || req.fee < 0 || req.cap < 0
    ensures var after := Run(m, CallActions(req, w));
            after.rows == m.rows && after.log == m.log && after.result.Some? && after.result.value.Refused?
  {
    hide Run, FromPrivate;
    CallIs(m, req, w);
    EndedStays(Step(Step(m, Begin(req)), Reserve(w.period, w.reserveIo)), w);
  }

  /** And every other request is not. */
  lemma WellFormedIsReady(req: Request)
    ensures RequestFault(req).None? <==>
              && req.key.vault != "" && |req.key.digest| == 32 && req.psbt != ""
              && req.recipient > 0 && req.fee >= 0 && req.cap >= 0
  {
  }

  /** A signer that fails or answers nothing leaves the reservation for the next
      call. */
  lemma FailedSignerKeepsReservation(m: Machine, req: Request, w: World, row: Row)
    requires Ready(m, req) && req.staged && w.reserveIo == Clean
    requires RowAt(m.rows, req.key) == Some(row) && BoundTo(row, req) && row.state == Reserved
    requires w.private(req.psbt).None? || w.private(req.psbt) == Some("")
    ensures var after := Run(m, CallActions(req, w));
            var e := if w.private(req.psbt).None? then SignerFailed else EmptyResponse;
            && after.rows == m.rows && after.result == Some(Refused(e))
            && after.log == m.log + [Begun(req.key, true), PrivateAsked(req.key, req.psbt),
                                     Replied(req.key, Refused(e))]
  {
    hide Run, RequestFault, RowAt, Core, ReserveTx, FromPublic, StageTx;
    CallIs(m, req, w);
    BeginStarts(m, req);
    FoundReserved(m, req, w.period, row);
    var begun := Step(m, Begin(req));
    var reserved := Step(begun, Reserve(w.period, w.reserveIo));
    assert reserved == begun.(call := Some(Call(req, AskingPrivate)));
    var asked := Step(reserved, AskPrivate(w.private));
    assert asked.call.None?;
    EndedStays(asked, w);
  }

  // ---- transactions that fail ----

  /** A new reservation that rolls back leaves no row; one whose reply is lost leaves
      its row. Either way the call ends there, and nobody is asked. */
  lemma ReservationFails(m: Machine, req: Request, w: World)
    requires Ready(m, req) && RowAt(m.rows, req.key).None? && w.reserveIo != Clean
    requires Spent(m.rows, req.key.vault, w.period) + req.recipient + req.fee <= req.cap
    ensures var after := Run(m, CallActions(req, w));
            && after.result == Some(Refused(DatabaseFailed)) && after.call.None?
            && (w.reserveIo == RolledBack ==>
                  && after.rows == m.rows
                  && after.log == m.log + [Begun(req.key, req.staged), Replied(req.key, Refused(DatabaseFailed))])
            && (w.reserveIo == ReplyLost ==>
                  && OnlyRow(m.rows, after.rows, req.key,
                             Row(req.key, w.period, req.recipient, req.fee, Reserved, req.psbt, None, None))
                  && after.log == m.log + [Begun(req.key, req.staged), RowReserved(req.key, req.psbt),
                                           Replied(req.key, Refused(DatabaseFailed))])
  {
    hide Run, RequestFault, ReserveTx, RowAt, Core, Spent, OnlyRow, FromPrivate;
    CallIs(m, req, w);
    CoreRowsOk(m);
    BeginStarts(m, req);
    Admitted(m, req, w.period);
    NewRowOnly(m.rows, NewRow(req, w.period));
    EndedStays(Step(Step(m, Begin(req)), Reserve(w.period, w.reserveIo)), w);
  }

  /** A vault signature whose store rolls back is lost, and the row stays reserved;
      one whose reply is lost is kept. */
  lemma VaultStoreFails(m: Machine, req: Request, row: Row, a: Text, io: Io)
    requires m.call == Some(Call(req, StoringVault(a))) && RowsOk(m.rows) && io != Clean
    requires RowAt(m.rows, req.key) == Some(row) && row.state == Reserved
    ensures var after := Step(m, StoreVault(io));
            && after.result == Some(Refused(DatabaseFailed)) && after.call.None?
            && (io == RolledBack ==> after.rows == m.rows)
            && (io == ReplyLost ==>
                  OnlyRow(m.rows, after.rows, req.key, row.(state := VaultSigned, vaultPsbt := Some(a))))
  {
    hide RowAt, StageTx, RowsOk;
    StoreRow(m.rows, req.key, row, a);
    hide OnlyRow;
  }

  /** The same for the completion; and a caller that has gone by then still leaves a
      completed row behind. */
  lemma CompletionStore(m: Machine, req: Request, row: Row, b: Text, io: Io, cancelled: bool)
    requires m.call == Some(Call(req, StoringSigned(b))) && RowsOk(m.rows)
    requires RowAt(m.rows, req.key) == Some(row) && row.state == VaultSigned
    ensures var after := Step(m, StoreSigned(io, cancelled));
            && after.call.None?
            && (io == RolledBack ==> after.rows == m.rows)
            && (io != RolledBack ==>
                  OnlyRow(m.rows, after.rows, req.key, row.(state := Completed, signedPsbt := Some(b))))
            && after.result == Some(if io != Clean then Refused(DatabaseFailed)
                                    else if cancelled then SignedLate(b) else Signed(b, false))
  {
    hide RowAt, StageTx, RowsOk;
    StoreRow(m.rows, req.key, row, b);
    hide OnlyRow;
  }

  /** A legacy call has one signer, and its answer is also the completion. */
  lemma LegacyCompletes(m: Machine, req: Request, w: World, a: Text)
    requires Ready(m, req) && !req.staged && CleanWorld(w) && RowAt(m.rows, req.key).None?
    requires Spent(m.rows, req.key.vault, w.period) + req.recipient + req.fee <= req.cap
    requires w.private(req.psbt) == Some(a) && a != ""
    ensures var after := Run(m, CallActions(req, w));
            && OnlyRow(m.rows, after.rows, req.key,
                       Row(req.key, w.period, req.recipient, req.fee, Completed, req.psbt, Some(a), Some(a)))
            && after.call.None? && after.result == Some(Signed(a, false))
  {
    hide Run, RequestFault, ReserveTx, RowAt, Core, FromPrivate, FromPublic, OnlyRow, Spent, CleanWorld;
    CallIs(m, req, w);
    var begun := Step(m, Begin(req));
    var reserved := Step(begun, Reserve(w.period, w.reserveIo));
    StepKeeps(m, Begin(req));
    StepKeeps(begun, Reserve(w.period, w.reserveIo));
    var row := NewRow(req, w.period);
    NewReserved(m, req, w);
    NewRowOnly(m.rows, row);
    CoreRowsOk(reserved);
    var stored := Step(Step(reserved, AskPrivate(w.private)), StoreVault(w.vaultIo));
    var signed := row.(state := VaultSigned, vaultPsbt := Some(a));
    FirstStored(reserved, req, w, row, a);
    LegacyHalf(stored, req, w, signed, a);
    SameElsewhere(m.rows, reserved.rows, stored.rows, req.key, row, signed);
    SameElsewhere(m.rows, stored.rows, FromPublic(stored, w).rows, req.key, signed, Finished(row, a, a));
    assert FromPrivate(reserved, w) == FromPublic(stored, w) by {
      FromPrivateIs(reserved, w);
    }
  }

  lemma FromPrivateIs(m: Machine, w: World)
    ensures FromPrivate(m, w) == FromPublic(Step(Step(m, AskPrivate(w.private)), StoreVault(w.vaultIo)), w)
  {
  }

  lemma LegacyHalf(m: Machine, req: Request, w: World, row: Row, a: Text)
    requires CleanWorld(w) && !req.staged && RowsOk(m.rows) && a != ""
    requires m.call == Some(Call(req, AskingPublic(a)))
    requires RowAt(m.rows, req.key) == Some(row) && row.state == VaultSigned && row.vaultPsbt == Some(a)
    ensures var after := FromPublic(m, w);
            && OnlyRow(m.rows, after.rows, req.key, Finished(row, a, a))
            && after.call.None? && after.result == Some(Signed(a, false))
  {
    StoreRow(m.rows, req.key, row, a);
    hide RowAt, StageTx, RowsOk, OnlyRow;
    assert Step(m, AskPublic(w.public)) == m.(call := Some(Call(req, StoringSigned(a))));
  }

  // ---- after any history ----

  /** Whatever happened before, and wherever it crashed, a clean staged call for a
      key that was charged brings its request to a completed row and a signed reply,
      if the signers answer the texts they are asked about. */
  lemma RetryCompletes(acts: seq<Action>, req: Request, w: World, row: Row)
    requires RowAt(Run(Fresh(), acts).rows, req.key) == Some(row) && BoundTo(row, req)
    requires req.staged && CleanWorld(w) && RequestFault(req).None?
    requires forall t :: w.private(t).Some? && w.private(t).value != "" && w.public(t).Some? && w.public(t).value != ""
    ensures var after := Run(Step(Run(Fresh(), acts), Crash), CallActions(req, w));
            && RowAt(after.rows, req.key).Some? && RowAt(after.rows, req.key).value.state == Completed
            && after.result.Some? && after.result.value.Signed?
            && RowAt(after.rows, req.key).value.signedPsbt == Some(after.result.value.text)
  {
    hide Run, RequestFault, RowAt, Core, FromPrivate;
    var before := Run(Fresh(), acts);
    FreshInv();
    RunKeeps(Fresh(), acts);
    var m := Step(before, Crash);
    StepKeeps(before, Crash);
    assert m.rows == before.rows && m.call.None?;
    FoundReserved(m, req, w.period, row);
    match row.state
    case Reserved =>
      var a := w.private(req.psbt).value;
      ReservedCompletes(m, req, w, row, a, w.public(a).value);
    case VaultSigned =>
      var a := row.vaultPsbt.value;
      VaultSignedCompletes(m, req, w, row, a, w.public(a).value);
    case Completed =>
      CompletedCall(m, req, w, row);
  }

  /** A completed row replies with its stored text. */
  lemma CompletedCall(m: Machine, req: Request, w: World, row: Row)
    requires Ready(m, req) && w.reserveIo == Clean
    requires RowAt(m.rows, req.key) == Some(row) && BoundTo(row, req) && row.state == Completed
    ensures row.signedPsbt.Some?
    ensures var after := Run(m, CallActions(req, w));
            after.rows == m.rows && after.result == Some(Signed(row.signedPsbt.value, true))
  {
    hide Run, RequestFault, RowAt, Core, FromPrivate, ReserveTx;
    CallIs(m, req, w);
    BeginStarts(m, req);
    FoundReserved(m, req, w.period, row);
    EndedStays(Step(Step(m, Begin(req)), Reserve(w.period, w.reserveIo)), w);
  }
}
