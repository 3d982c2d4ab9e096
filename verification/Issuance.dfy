/** The issuance table and the pipeline over it as a state machine: every database
    transaction is one step, and a crash may come between any two. */
module Issuance {
  import opened Common
  import Int64

  type Text = string

  datatype RowState = Reserved | VaultSigned | Completed

  datatype Key = Key(vault: Text, digest: Bytes)

  datatype Row = Row(
    key: Key, period: Text, recipient: int, fee: int, state: RowState,
    request: Text, vaultPsbt: Option<Text>, signedPsbt: Option<Text>)

  /** A request to issue; a staged one may resume a reservation, a legacy one not. */
  datatype Request = Request(
    key: Key, psbt: Text, recipient: Int64.int64, fee: Int64.int64, cap: Int64.int64, staged: bool)

  datatype IssueError =
    | VaultRequired | BadDigest | RequestRequired | RecipientRequired | NegativeFee | NegativeAllowance
    | DatabaseFailed | BoundDifferently | Inconsistent | NegativeOutflow | OutflowOverflow | AllowanceExceeded
    | AmbiguousAttempt | InvalidState | SignerFailed | EmptyResponse

  /** What a transaction reads of a row. */
  datatype Stage = Stage(state: RowState, request: Text, vaultPsbt: Text, signedPsbt: Text, created: bool)

  datatype IssueResult = Signed(text: Text, replay: bool) | SignedLate(text: Text) | Refused(error: IssueError)

  const LEGACY_PREFIX: Text := "legacy-external-signer:"
  const DIGEST_BYTES: nat := 32

  // ---- checks before any transaction ----

  function RequestFault(r: Request): Option<IssueError> {
    if r.key.vault == "" then Some(VaultRequired)
    else if |r.key.digest| != DIGEST_BYTES then Some(BadDigest)
    else if r.psbt == "" then Some(RequestRequired)
    else if r.recipient <= 0 then Some(RecipientRequired)
    else if r.fee < 0 then Some(NegativeFee)
    else if r.cap < 0 then Some(NegativeAllowance)
    else None
  }

  /** addOutflow: the sum of two int64 amounts. */
  function AddOutflow(recipient: int, fee: int): Result<int, IssueError> {
    if recipient < 0 || fee < 0 then Err(NegativeOutflow)
    else if fee > 0 && recipient > Int64.MAX - fee then Err(OutflowOverflow)
    else Ok(recipient + fee)
  }

  lemma AddOutflowExact(recipient: Int64.int64, fee: Int64.int64)
    ensures AddOutflow(recipient, fee).Ok? <==> recipient >= 0 && fee >= 0 && recipient + fee <= Int64.MAX
  {
  }

  // ---- the table ----

  function Find(rows: seq<Row>, key: Key): Option<nat> {
    if rows == [] then None
    else if rows[0].key == key then Some(0)
    else
      match Find(rows[1..], key)
      case None => None
      case Some(i) => Some(i + 1)
  }

  lemma {:induction false} FindIndex(rows: seq<Row>, key: Key)
    ensures match Find(rows, key)
            case None => forall i :: 0 <= i < |rows| ==> rows[i].key != key
            case Some(k) => k < |rows| && rows[k].key == key && forall i :: 0 <= i < k ==> rows[i].key != key
  {
    if rows != [] {
      FindIndex(rows[1..], key);
    }
  }

  function Outflow(r: Row): int {
    r.recipient + r.fee
  }

  /** The outflow of one vault in one period. Every state counts. */
  function Spent(rows: seq<Row>, vault: Text, period: Text): int {
    if rows == [] then 0
    else Spent(rows[..|rows| - 1], vault, period)
         + if Last(rows).key.vault == vault && Last(rows).period == period then Outflow(Last(rows)) else 0
  }

  function OrEmpty(t: Option<Text>): Text {
    if t.Some? then t.value else ""
  }

  function StageOf(r: Row): Stage {
    Stage(r.state, r.request, OrEmpty(r.vaultPsbt), OrEmpty(r.signedPsbt), false)
  }

  /** validateIssuanceStage. */
  predicate Consistent(s: Stage) {
    && s.request != ""
    && match s.state
       case Reserved => s.vaultPsbt == "" && s.signedPsbt == ""
       case VaultSigned => s.vaultPsbt != "" && s.signedPsbt == ""
       case Completed => s.vaultPsbt != "" && s.signedPsbt != ""
  }

  // ---- the transactions ----

  function NewRow(r: Request, period: Text): Row {
    Row(r.key, period, r.recipient, r.fee, Reserved, r.psbt, None, None)
  }

  function BindStored(row: Row, r: Request): Result<Stage, IssueError> {
    if row.request != r.psbt || row.recipient != r.recipient || row.fee != r.fee then Err(BoundDifferently)
    else if !Consistent(StageOf(row)) then Err(Inconsistent)
    else Ok(StageOf(row))
  }

  /** What commitReservation commits. */
  function ReserveTx(rows: seq<Row>, r: Request, period: Text): Result<(seq<Row>, Stage), IssueError> {
    match Find(rows, r.key)
    case Some(i) =>
      (FindIndex(rows, r.key);
       var stage :- BindStored(rows[i], r);
       Ok((rows, stage)))
    case None =>
      var used := Spent(rows, r.key.vault, period);
      if used < 0 || used > Int64.MAX then Err(DatabaseFailed)
      else
        var need :- AddOutflow(r.recipient, r.fee);
        if used > r.cap || need > r.cap - used then Err(AllowanceExceeded)
        else Ok((rows + [NewRow(r, period)], Stage(Reserved, r.psbt, "", "", true)))
  }

  function Advanced(row: Row, text: Text): Row {
    match row.state
    case Reserved => row.(state := VaultSigned, vaultPsbt := Some(text))
    case VaultSigned => row.(state := Completed, signedPsbt := Some(text))
    case Completed => row
  }

  /** What commitSigningStage commits: the update of a row in the wanted state. */
  function StageTx(rows: seq<Row>, key: Key, want: RowState, text: Text): Result<seq<Row>, IssueError>
    requires want != Completed
  {
    match Find(rows, key)
    case None => Err(InvalidState)
    case Some(i) =>
      (FindIndex(rows, key);
       if rows[i].state != want then Err(InvalidState) else Ok(rows[i := Advanced(rows[i], text)]))
  }

  // ---- the machine ----

  /** How a transaction ends: as it should, rolled back, or committed with the
      reply lost. */
  datatype Io = Clean | RolledBack | ReplyLost

  datatype Phase =
    | Reserving
    | AskingPrivate
    | StoringVault(text: Text)
    | AskingPublic(text: Text)
    | StoringSigned(text: Text)

  datatype Call = Call(req: Request, phase: Phase)

  datatype Event =
    | Begun(key: Key, staged: bool)
    | RowReserved(key: Key, request: Text)
    | PrivateAsked(key: Key, request: Text)
    | RowVaultSigned(key: Key, text: Text)
    | PublicAsked(key: Key, text: Text)
    | RowCompleted(key: Key, text: Text)
    | Replied(key: Key, result: IssueResult)

  /** The rows survive a crash; the call in progress does not. The log is the
      history of what happened and is read by nobody. */
  datatype Machine = Machine(rows: seq<Row>, call: Option<Call>, log: seq<Event>, result: Option<IssueResult>)

  /** A signer answers whatever it likes, or fails. */
  type Signer = Text -> Option<Text>

  datatype Action =
    | Begin(req: Request)
    | Reserve(period: Text, io: Io)
    | AskPrivate(signer: Signer)
    | StoreVault(io: Io)
    | AskPublic(signer: Signer)
    | StoreSigned(io: Io, cancelled: bool)
    | Crash

  function Logged(m: Machine, e: Event): Machine {
    m.(log := m.log + [e])
  }

  function End(m: Machine, key: Key, r: IssueResult): Machine {
    Logged(m, Replied(key, r)).(call := None, result := Some(r))
  }

  function Next(m: Machine, req: Request, phase: Phase): Machine {
    m.(call := Some(Call(req, phase)))
  }

  function BeginStep(m: Machine, req: Request): Machine {
    if m.call.Some? then m
    else if RequestFault(req).Some? then m.(result := Some(Refused(RequestFault(req).value)))
    else Next(Logged(m, Begun(req.key, req.staged)), req, Reserving)
  }

  function AfterReserve(m: Machine, req: Request, stage: Stage): Machine {
    match stage.state
    case Completed => End(m, req.key, Signed(stage.signedPsbt, true))
    case Reserved =>
      if !stage.created && !req.staged then End(m, req.key, Refused(AmbiguousAttempt))
      else Next(m, req, AskingPrivate)
    case VaultSigned => Next(m, req, AskingPublic(stage.vaultPsbt))
  }

  function ReserveStep(m: Machine, req: Request, period: Text, io: Io): Machine {
    match ReserveTx(m.rows, req, period)
    case Err(e) => End(m, req.key, Refused(e))
    case Ok((rows, stage)) =>
      if io == RolledBack then End(m, req.key, Refused(DatabaseFailed))
      else
        var stored := m.(rows := rows);
        var done := if stage.created then Logged(stored, RowReserved(req.key, req.psbt)) else stored;
        if io == ReplyLost then End(done, req.key, Refused(DatabaseFailed)) else AfterReserve(done, req, stage)
  }

  function Answered(m: Machine, req: Request, answer: Option<Text>, next: Text -> Phase): Machine {
    match answer
    case None => End(m, req.key, Refused(SignerFailed))
    case Some(t) => if t == "" then End(m, req.key, Refused(EmptyResponse)) else Next(m, req, next(t))
  }

  function StoreVaultStep(m: Machine, req: Request, text: Text, io: Io): Machine {
    match StageTx(m.rows, req.key, Reserved, text)
    case Err(e) => End(m, req.key, Refused(e))
    case Ok(rows) =>
      if io == RolledBack then End(m, req.key, Refused(DatabaseFailed))
      else
        var done := Logged(m.(rows := rows), RowVaultSigned(req.key, text));
        if io == ReplyLost then End(done, req.key, Refused(DatabaseFailed))
        else Next(done, req, AskingPublic(text))
  }

  function StoreSignedStep(m: Machine, req: Request, text: Text, io: Io, cancelled: bool): Machine {
    match StageTx(m.rows, req.key, VaultSigned, text)
    case Err(e) => End(m, req.key, Refused(e))
    case Ok(rows) =>
      if io == RolledBack then End(m, req.key, Refused(DatabaseFailed))
      else
        var done := Logged(m.(rows := rows), RowCompleted(req.key, text));
        if io == ReplyLost then End(done, req.key, Refused(DatabaseFailed))
        else End(done, req.key, if cancelled then SignedLate(text) else Signed(text, false))
  }

  /** A legacy issuance has no public stage: the stored text is the answer. */
  function AskPublicStep(m: Machine, req: Request, text: Text, signer: Signer): Machine {
    if req.staged then Answered(Logged(m, PublicAsked(req.key, text)), req, signer(text), t => StoringSigned(t))
    else Answered(m, req, Some(text), t => StoringSigned(t))
  }

  function CallStep(m: Machine, c: Call, a: Action): Machine {
    match a
    case Reserve(period, io) => if c.phase == Reserving then ReserveStep(m, c.req, period, io) else m
    case AskPrivate(signer) =>
      if c.phase == AskingPrivate then
        Answered(Logged(m, PrivateAsked(c.req.key, c.req.psbt)), c.req, signer(c.req.psbt), t => StoringVault(t))
      else m
    case StoreVault(io) => if c.phase.StoringVault? then StoreVaultStep(m, c.req, c.phase.text, io) else m
    case AskPublic(signer) => if c.phase.AskingPublic? then AskPublicStep(m, c.req, c.phase.text, signer) else m
    case StoreSigned(io, cancelled) =>
      if c.phase.StoringSigned? then StoreSignedStep(m, c.req, c.phase.text, io, cancelled) else m
    case _ => m
  }

  /** One step. An action the machine is not ready for changes nothing. */
  function Step(m: Machine, a: Action): Machine {
    match a
    case Begin(req) => BeginStep(m, req)
    case Crash => m.(call := None, result := None)
    case _ => if m.call.None? then m else CallStep(m, m.call.value, a)
  }

  function Run(m: Machine, acts: seq<Action>): Machine
    decreases |acts|
  {
    if acts == [] then m else Run(Step(m, acts[0]), acts[1..])
  }

  function Fresh(): Machine {
    Machine([], None, [], None)
  }
}
