/** Authorization end to end: the two stage callbacks over the ledger, and what a
    completed issuance then is. */
module Authorizing {
  import opened Common
  import opened Psbts
  import opened PsbtGuard
  import opened Issuance
  import opened IssuanceProofs
  import opened Ledgers

  /** The enrolled vault as the callbacks know it: x-only keys and routine script. */
  datatype Config = Config(lib: Library, script: Bytes, phone: Bytes, vault: Bytes, arkade: Bytes)

  function TwoKeys(c: Config): seq<Option<Bytes>> {
    [Some(c.phone), Some(c.vault)]
  }

  function ThreeKeys(c: Config): seq<Option<Bytes>> {
    [Some(c.phone), Some(c.vault), Some(c.arkade)]
  }

  // ---- what a callback promises ----

  predicate VaultDelta(c: Config, before: Text, after: Text) {
    StageDelta(c.lib, before, after, c.vault)
  }

  predicate ArkadeDelta(c: Config, before: Text, after: Text) {
    && StageDelta(c.lib, before, after, c.arkade)
    && c.lib.decode(after).Some? && c.lib.prevoutVerified(c.lib.decode(after).value)
    && ExactRoutine(c.lib, c.lib.decode(before).value, c.script, TwoKeys(c))
    && ExactRoutine(c.lib, c.lib.decode(after).value, c.script, ThreeKeys(c))
  }

  // ---- the callbacks ----

  function VaultAnswer(c: Config, remote: Remote, text: Text): Option<Text> {
    var signed := PsbtGuard.Stage(c.lib, text, remote, c.vault);
    if signed.Ok? then Some(signed.value) else None
  }

  function ArkadeAnswer(c: Config, remote: Remote, text: Text): Option<Text> {
    match Parsed(c.lib, text)
    case None => None
    case Some(p) =>
      if !ExactRoutine(c.lib, p, c.script, TwoKeys(c)) then None
      else
        var signed := PsbtGuard.Stage(c.lib, text, remote, c.arkade);
        if signed.Err? then None
        else
          match Parsed(c.lib, signed.value)
          case None => None
          case Some(q) => if ExactRoutine(c.lib, q, c.script, ThreeKeys(c)) then Some(signed.value) else None
  }

  method VaultCallback(c: Config, remote: Remote, text: Text) returns (r: Option<Text>)
    requires RoundTrips(c.lib)
    ensures r == VaultAnswer(c, remote, text)
    ensures r.Some? ==> VaultDelta(c, text, r.value)
  {
    hide PsbtGuard.Stage, StageDelta, RoundTrips;
    var signed := SignExactStage(c.lib, text, remote, c.vault);
    if signed.Err? {
      return None;
    }
    return Some(signed.value);
  }

  method ArkadeCallback(c: Config, remote: Remote, text: Text) returns (r: Option<Text>)
    requires RoundTrips(c.lib)
    ensures r == ArkadeAnswer(c, remote, text)
    ensures r.Some? ==> ArkadeDelta(c, text, r.value)
  {
    hide ExactRoutine, PsbtGuard.Stage, StageDelta, RoundTrips;
    var stage := Parsed(c.lib, text);
    if stage.None? {
      return None;
    }
    var fault := VerifyExactRoutineSignatures(c.lib, stage.value, c.script, TwoKeys(c));
    if fault.Some? {
      return None;
    }
    var signed := SignExactStage(c.lib, text, remote, c.arkade);
    if signed.Err? {
      return None;
    }
    var completed := Parsed(c.lib, signed.value);
    if completed.None? {
      return None;
    }
    fault := VerifyExactRoutineSignatures(c.lib, completed.value, c.script, ThreeKeys(c));
    if fault.Some? {
      return None;
    }
    return Some(signed.value);
  }

  // ---- what the callbacks promise, whatever the remotes return ----

  lemma VaultAnswerDelta(c: Config, remote: Remote, text: Text)
    requires RoundTrips(c.lib) && VaultAnswer(c, remote, text).Some?
    ensures VaultDelta(c, text, VaultAnswer(c, remote, text).value)
  {
    hide PsbtGuard.Stage, StageDelta, RoundTrips;
    StageAddsOne(c.lib, text, remote, c.vault);
  }

  lemma ArkadeAnswerDelta(c: Config, remote: Remote, text: Text)
    requires RoundTrips(c.lib) && ArkadeAnswer(c, remote, text).Some?
    ensures ArkadeDelta(c, text, ArkadeAnswer(c, remote, text).value)
  {
    hide PsbtGuard.Stage, StageDelta, ExactRoutine, RoundTrips;
    StageAddsOne(c.lib, text, remote, c.arkade);
  }

  // ---- the packets along a run ----

  /** Every action of the run is one an authorization makes: a staged request, or a
      signer that goes through the callbacks. */
  ghost predicate Guarded(c: Config, a: Action) {
    && (a.Begin? ==> a.req.staged)
    && (a.AskPrivate? ==> forall t: Text :: a.signer(t).Some? ==> VaultDelta(c, t, a.signer(t).value))
    && (a.AskPublic? ==> forall t: Text :: a.signer(t).Some? ==> ArkadeDelta(c, t, a.signer(t).value))
  }

  ghost predicate AllGuarded(c: Config, acts: seq<Action>) {
    forall i :: 0 <= i < |acts| ==> Guarded(c, acts[i])
  }

  predicate RowLinked(c: Config, r: Row) {
    && (r.vaultPsbt.Some? ==> VaultDelta(c, r.request, r.vaultPsbt.value))
    && (r.signedPsbt.Some? ==> r.vaultPsbt.Some? && ArkadeDelta(c, r.vaultPsbt.value, r.signedPsbt.value))
  }

  predicate RowsLinked(c: Config, rows: seq<Row>) {
    forall i :: 0 <= i < |rows| ==> RowLinked(c, rows[i])
  }

  predicate CallLinked(c: Config, m: Machine) {
    m.call.Some? ==>
      var req, row := m.call.value.req, RowAt(m.rows, m.call.value.req.key);
      && req.staged
      && match m.call.value.phase
         case StoringVault(t) => row.Some? && VaultDelta(c, row.value.request, t)
         case StoringSigned(t) =>
           row.Some? && row.value.vaultPsbt.Some? && ArkadeDelta(c, row.value.vaultPsbt.value, t)
         case _ => true
  }

  ghost predicate Linked(c: Config, m: Machine) {
    RowsLinked(c, m.rows) && CallLinked(c, m)
  }

  lemma StageLinked(c: Config, rows: seq<Row>, key: Key, want: RowState, text: Text)
    requires RowsLinked(c, rows) && RowsOk(rows) && want != Completed && StageTx(rows, key, want, text).Ok?
    requires RowAt(rows, key).Some?
    requires if want == Reserved then VaultDelta(c, RowAt(rows, key).value.request, text)
             else RowAt(rows, key).value.vaultPsbt.Some? && ArkadeDelta(c, RowAt(rows, key).value.vaultPsbt.value, text)
    ensures RowsLinked(c, StageTx(rows, key, want, text).value)
  {
    hide VaultDelta, ArkadeDelta, Consistent, Outflow;
    FindIndex(rows, key);
    assert RowOk(rows[Find(rows, key).value]);
    hide Find, RowsOk;
  }

  lemma ReserveLinked(c: Config, rows: seq<Row>, r: Request, period: Text)
    requires RowsLinked(c, rows) && ReserveTx(rows, r, period).Ok?
    ensures RowsLinked(c, ReserveTx(rows, r, period).value.0)
  {
    hide VaultDelta, ArkadeDelta, Consistent, ReserveTx, RowAt;
    ReserveResult(rows, r, period);
  }

  lemma StepLinked(c: Config, m: Machine, a: Action)
    requires Inv(m) && Linked(c, m) && Guarded(c, a)
    ensures Linked(c, Step(m, a))
  {
    hide VaultDelta, ArkadeDelta, Core, ReserveTx, StageTx, RowsLinked, RowAt, RequestFault, LegacyOnly, PrivateCount;
    match a
    case Begin(_) =>
    case Crash =>
    case _ =>
      if m.call.Some? {
        CallStepLinked(c, m, m.call.value, a);
      }
  }

  lemma CallStepLinked(c: Config, m: Machine, call: Call, a: Action)
    requires Inv(m) && Linked(c, m) && Guarded(c, a) && m.call == Some(call)
    ensures Linked(c, CallStep(m, call, a))
  {
    hide VaultDelta, ArkadeDelta, Core, ReserveTx, StageTx;
    hide RowsLinked, RowAt, RequestFault, LegacyOnly, PrivateCount, RowsOk;
    match a
    case Reserve(period, io) => ReserveStepLinked(c, m, call.req, period, io);
    case StoreVault(io) =>
      if call.phase.StoringVault? {
        VaultStepLinked(c, m, call.req, call.phase.text, io);
      }
    case StoreSigned(io, cancelled) =>
      if call.phase.StoringSigned? {
        SignedStepLinked(c, m, call.req, call.phase.text, io, cancelled);
      }
    case _ =>
  }

  lemma ReserveStepLinked(c: Config, m: Machine, req: Request, period: Text, io: Io)
    requires RowsLinked(c, m.rows) && req.staged
    ensures Linked(c, ReserveStep(m, req, period, io))
  {
    hide VaultDelta, ArkadeDelta, ReserveTx, RowsLinked, RowAt;
    if ReserveTx(m.rows, req, period).Ok? {
      ReserveLinked(c, m.rows, req, period);
    }
  }

  lemma VaultStepLinked(c: Config, m: Machine, req: Request, text: Text, io: Io)
    requires Core(m.rows, m.log) && RowsLinked(c, m.rows) && req.staged && RowAt(m.rows, req.key).Some?
    requires VaultDelta(c, RowAt(m.rows, req.key).value.request, text)
    ensures Linked(c, StoreVaultStep(m, req, text, io))
  {
    hide VaultDelta, ArkadeDelta, Core, StageTx, RowsLinked, RowAt;
    CoreRows(m.rows, m.log);
    if StageTx(m.rows, req.key, Reserved, text).Ok? {
      StageLinked(c, m.rows, req.key, Reserved, text);
    }
  }

  lemma SignedStepLinked(c: Config, m: Machine, req: Request, text: Text, io: Io, cancelled: bool)
    requires Core(m.rows, m.log) && RowsLinked(c, m.rows) && req.staged && RowAt(m.rows, req.key).Some?
    requires RowAt(m.rows, req.key).value.vaultPsbt.Some?
    requires ArkadeDelta(c, RowAt(m.rows, req.key).value.vaultPsbt.value, text)
    ensures Linked(c, StoreSignedStep(m, req, text, io, cancelled))
  {
    hide VaultDelta, ArkadeDelta, Core, StageTx, RowsLinked, RowAt;
    CoreRows(m.rows, m.log);
    if StageTx(m.rows, req.key, VaultSigned, text).Ok? {
      StageLinked(c, m.rows, req.key, VaultSigned, text);
    }
  }

  lemma CoreRows(rows: seq<Row>, log: seq<Event>)
    requires Core(rows, log)
    ensures RowsOk(rows)
  {
    hide Ordered, Told, LegacyOnce;
  }

  lemma {:induction false} RunLinked(c: Config, m: Machine, acts: seq<Action>)
    requires Inv(m) && Linked(c, m) && AllGuarded(c, acts)
    ensures Linked(c, Run(m, acts))
    decreases |acts|
  {
    hide Step, Inv, Linked, Guarded;
    if acts != [] {
      StepKeeps(m, acts[0]);
      StepLinked(c, m, acts[0]);
      RunLinked(c, Step(m, acts[0]), acts[1..]);
    }
  }

  // ---- what a completed authorization is ----

  /** The signatures are the one of the phone and two more, of the vault and the
      arkade key, each valid over the request's own transaction. */
  predicate TwoAdded(c: Config, before: Psbt, first: Option<SpendSig>, after: seq<Option<SpendSig>>)
    requires HasLeaf(before)
  {
    exists v, a :: v in after && a in after
                   && Expected(c.lib, before, c.vault, v) && Expected(c.lib, before, c.arkade, a)
                   && multiset(after) == multiset{first, v, a}
  }

  /** The request's packet with exactly two more signatures and nothing else
      changed; and the three are one valid signature for each of the three keys. */
  predicate ExactCompletion(c: Config, request: Text, signed: Text) {
    && c.lib.decode(request).Some? && c.lib.decode(signed).Some?
    && var before, after := c.lib.decode(request).value, c.lib.decode(signed).value;
       && HasLeaf(before) && |after.inputs| == 1
       && c.lib.prevoutVerified(before) && c.lib.prevoutVerified(after)
       && var old', new' := before.inputs[0].sigs, after.inputs[0].sigs;
          && |old'| == 1 && KeyOf(old'[0]) == Some(c.phone)
          && TwoAdded(c, before, old'[0], new')
          && after == before.(inputs := [before.inputs[0].(sigs := new')])
          && ExactRoutine(c.lib, after, c.script, ThreeKeys(c))
  }

  /** Two signatures, one added to another. */
  lemma PairOf(before: seq<Option<SpendSig>>, after: seq<Option<SpendSig>>, s: Option<SpendSig>)
    requires Adds(before, after, s) && |after| == 2
    ensures |before| == 1 && (after == [before[0], s] || after == [s, before[0]])
  {
    assert |multiset(after)| == |multiset(before)| + 1;
    assert before == [before[0]];
    assert after == [after[0], after[1]];
    assert multiset(after) == multiset{after[0], after[1]} == multiset{before[0], s};
    assert after[0] in multiset{before[0], s} && s in multiset{after[0], after[1]};
    if after[0] == s {
      assert multiset{after[1]} == multiset{after[0], after[1]} - multiset{s} == multiset{before[0]};
      assert after[1] in multiset{before[0]};
    } else {
      assert multiset{after[1]} == multiset{after[0], after[1]} - multiset{before[0]} == multiset{s};
      assert after[1] in multiset{s};
    }
  }

  lemma AddsTwice(x: seq<Option<SpendSig>>, y: seq<Option<SpendSig>>, z: seq<Option<SpendSig>>,
                  v: Option<SpendSig>, a: Option<SpendSig>)
    requires |x| == 1 && Adds(x, y, v) && Adds(y, z, a)
    ensures multiset(z) == multiset{x[0], v, a} && v in z && a in z
  {
    assert x == [x[0]];
    assert v in multiset(z) && a in multiset(z);
  }

  /** Of two routine signatures, the one that is not the vault's is the phone's. */
  lemma PhoneWasFirst(c: Config, q: Psbt, before: seq<Option<SpendSig>>, v: Option<SpendSig>)
    requires ExactRoutine(c.lib, q, c.script, TwoKeys(c)) && KeyOf(v) == Some(c.vault)
    requires Adds(before, q.inputs[0].sigs, v)
    ensures |before| == 1 && KeyOf(before[0]) == Some(c.phone)
  {
    hide RoutineSig, Adds;
    var y := q.inputs[0].sigs;
    PairOf(before, y, v);
    assert KeyOf(y[0]) in TwoKeys(c) && KeyOf(y[1]) in TwoKeys(c) && KeyOf(y[0]) != KeyOf(y[1]);
  }

  lemma DeltasComplete(c: Config, request: Text, vaultText: Text, signed: Text)
    requires VaultDelta(c, request, vaultText) && ArkadeDelta(c, vaultText, signed)
    ensures ExactCompletion(c, request, signed)
  {
    hide Expected, ExactRoutine, Adds;
    var before, middle := c.lib.decode(request).value, c.lib.decode(vaultText).value;
    var after := c.lib.decode(signed).value;
    var x, y, z := before.inputs[0].sigs, middle.inputs[0].sigs, after.inputs[0].sigs;
    var v :| v in y && Expected(c.lib, before, c.vault, v) && Adds(x, y, v);
    var a :| a in z && Expected(c.lib, middle, c.arkade, a) && Adds(y, z, a);
    ExpectedKey(c.lib, before, c.vault, v);
    PhoneWasFirst(c, middle, x, v);
    AddsTwice(x, y, z, v, a);
    SameOver(c.lib, before, y, c.arkade, a);
    assert TwoAdded(c, before, x[0], z);
  }

  lemma ExpectedKey(lib: Library, p: Psbt, key: Bytes, s: Option<SpendSig>)
    requires HasLeaf(p) && Expected(lib, p, key, s)
    ensures KeyOf(s) == Some(key)
  {
  }

  /** Other signatures do not change what one is checked against. */
  lemma SameOver(lib: Library, p: Psbt, sigs: seq<Option<SpendSig>>, key: Bytes, s: Option<SpendSig>)
    requires HasLeaf(p)
    ensures var q := p.(inputs := [p.inputs[0].(sigs := sigs)]);
            HasLeaf(q) && (Expected(lib, q, key, s) <==> Expected(lib, p, key, s))
  {
  }

  /** In every run of authorizations, whatever the two remote signers return, each
      completed row is the request with exactly the two more signatures. */
  lemma CompletedIsExact(c: Config, acts: seq<Action>, i: nat)
    requires AllGuarded(c, acts) && i < |Run(Fresh(), acts).rows|
    requires Run(Fresh(), acts).rows[i].signedPsbt.Some?
    ensures ExactCompletion(c, Run(Fresh(), acts).rows[i].request, Run(Fresh(), acts).rows[i].signedPsbt.value)
  {
    FreshInv();
    RunLinked(c, Fresh(), acts);
    hide Run, VaultDelta, ArkadeDelta, ExactCompletion, CallLinked;
    var row := Run(Fresh(), acts).rows[i];
    assert RowLinked(c, row);
    DeltasComplete(c, row.request, row.vaultPsbt.value, row.signedPsbt.value);
  }

  /** As many signatures as keys, each for another key: every key has its one. */
  lemma SignaturesCoverKeys(lib: Library, p: Psbt, script: Bytes, keys: seq<Option<Bytes>>, key: Option<Bytes>)
    requires ExactRoutine(lib, p, script, keys) && key in keys
    ensures exists i :: 0 <= i < |p.inputs[0].sigs| && KeyOf(p.inputs[0].sigs[i]) == key
  {
    hide RoutineSig;
    var sigs := p.inputs[0].sigs;
    var used := seq(|sigs|, i requires 0 <= i < |sigs| => KeyOf(sigs[i]));
    DistinctCount(used);
    DistinctCount(keys);
    FullSubset(Members(used), Members(keys));
    assert key in Members(keys);
  }

  // ---- every signature of a completion is valid ----

  /** Some signature is the key's, of the default type over the script's leaf, and
      the library verifies it over the given packet's transaction and spent output. */
  predicate SignedBy(c: Config, p: Psbt, sigs: seq<Option<SpendSig>>, key: Bytes)
    requires |p.inputs| == 1 && p.inputs[0].utxo.Some?
  {
    exists s :: s in sigs && s.Some? && s.value.key == key && s.value.sigHash == 0
                && s.value.leafHash == c.lib.leafHash(c.script)
                && c.lib.verify(p.tx, p.inputs[0].utxo.value, c.script, key, s.value.signature)
  }

  /** The signed text is the request's packet but for its signatures, which are
      three, one of each key, all valid over the request's own transaction; the spent
      output was verified in both. */
  predicate AllSigned(c: Config, request: Text, signed: Text) {
    && c.lib.decode(request).Some? && c.lib.decode(signed).Some?
    && var before, after := c.lib.decode(request).value, c.lib.decode(signed).value;
       && |before.inputs| == 1 && before.inputs[0].utxo.Some? && |after.inputs| == 1
       && c.lib.prevoutVerified(before) && c.lib.prevoutVerified(after)
       && after == before.(inputs := [before.inputs[0].(sigs := after.inputs[0].sigs)])
       && |after.inputs[0].sigs| == 3
       && SignedBy(c, before, after.inputs[0].sigs, c.phone)
       && SignedBy(c, before, after.inputs[0].sigs, c.vault)
       && SignedBy(c, before, after.inputs[0].sigs, c.arkade)
  }

  lemma KeySigned(c: Config, before: Psbt, after: Psbt, key: Bytes)
    requires |before.inputs| == 1 && before.inputs[0].utxo.Some? && |after.inputs| == 1
    requires after == before.(inputs := [before.inputs[0].(sigs := after.inputs[0].sigs)])
    requires ExactRoutine(c.lib, after, c.script, ThreeKeys(c)) && Some(key) in ThreeKeys(c)
    ensures SignedBy(c, before, after.inputs[0].sigs, key)
  {
    ExactRoutineMeans(c.lib, after, c.script, ThreeKeys(c));
    SignaturesCoverKeys(c.lib, after, c.script, ThreeKeys(c), Some(key));
    hide ExactRoutine, ThreeKeys;
    var sigs := after.inputs[0].sigs;
    var i :| 0 <= i < |sigs| && KeyOf(sigs[i]) == Some(key);
    assert sigs[i] in sigs;
  }

  lemma CompletionVerifies(c: Config, request: Text, signed: Text)
    requires ExactCompletion(c, request, signed)
    ensures AllSigned(c, request, signed)
  {
    hide ExactRoutine, TwoAdded, SignedBy;
    var before, after := c.lib.decode(request).value, c.lib.decode(signed).value;
    ThreeInAll(c, after);
    KeySigned(c, before, after, c.phone);
    KeySigned(c, before, after, c.vault);
    KeySigned(c, before, after, c.arkade);
  }

  lemma ThreeInAll(c: Config, after: Psbt)
    requires ExactRoutine(c.lib, after, c.script, ThreeKeys(c))
    ensures |after.inputs| == 1 && |after.inputs[0].sigs| == 3
    ensures forall key :: key == c.phone || key == c.vault || key == c.arkade ==> Some(key) in ThreeKeys(c)
  {
    hide SigsMatch;
    assert ThreeKeys(c)[0] == Some(c.phone) && ThreeKeys(c)[1] == Some(c.vault) && ThreeKeys(c)[2] == Some(c.arkade);
  }

  /** In every run, each of the three keys has a signature in a completed packet that
      the library verifies over the request's own transaction. */
  lemma CompletedVerifies(c: Config, acts: seq<Action>, i: nat)
    requires AllGuarded(c, acts) && i < |Run(Fresh(), acts).rows|
    requires Run(Fresh(), acts).rows[i].signedPsbt.Some?
    ensures AllSigned(c, Run(Fresh(), acts).rows[i].request, Run(Fresh(), acts).rows[i].signedPsbt.value)
  {
    hide Run, AllGuarded, ExactCompletion, AllSigned;
    CompletedIsExact(c, acts, i);
    CompletionVerifies(c, Run(Fresh(), acts).rows[i].request, Run(Fresh(), acts).rows[i].signedPsbt.value);
  }

  // ---- honest signers are served ----

  /** A signer that returns the packet it was given with one more valid signature of
      the key, the signatures in any order. */
  predicate Honest(c: Config, p: Psbt, copy: Psbt, remote: Remote, key: Bytes, s: SpendSig)
    requires HasLeaf(p)
  {
    && remote(copy).Some? && OneInput(remote(copy).value)
    && Adds(p.inputs[0].sigs, remote(copy).value.inputs[0].sigs, Some(s))
    && s.key == key && |s.signature| == 64 && s.sigHash == 0
    && s.leafHash == c.lib.leafHash(p.inputs[0].leaves[0].value.script)
    && c.lib.verify(p.tx, p.inputs[0].utxo.value, p.inputs[0].leaves[0].value.script, key, s.signature)
  }

  /** A stored request with distinct signatures gets the vault signature. */
  lemma HonestVault(c: Config, remote: Remote, text: Text, s: SpendSig)
    requires Parsed(c.lib, text).Some? && HasLeaf(Parsed(c.lib, text).value) && |c.vault| == 32
    requires var p := Parsed(c.lib, text).value;
             && AllDistinct(p.inputs[0].sigs) && None !in p.inputs[0].sigs
             && Copied(c.lib, p).Some? && OneInput(Copied(c.lib, p).value)
             && Honest(c, p, Copied(c.lib, p).value, remote, c.vault, s)
             && c.lib.encode(Appended(Copied(c.lib, p).value, s)).Some?
    ensures VaultAnswer(c, remote, text) ==
            c.lib.encode(Appended(Copied(c.lib, Parsed(c.lib, text).value).value, s))
  {
    hide NewSignature, PsbtGuard.Stage, Adds;
    var p := Parsed(c.lib, text).value;
    var copy := Copied(c.lib, p).value;
    HonestResponse(c.lib, p, remote(copy).value, c.vault, s);
    HonestStage(c.lib, text, remote, c.vault, s);
  }

  /** A stored packet with exactly the phone's and the vault's signatures gets the
      arkade signature, and then passes the check of all three. */
  lemma HonestArkade(c: Config, remote: Remote, text: Text, s: SpendSig)
    requires Parsed(c.lib, text).Some? && ExactRoutine(c.lib, Parsed(c.lib, text).value, c.script, TwoKeys(c))
    requires RoundTrips(c.lib) && |c.arkade| == 32 && c.arkade != c.phone && c.arkade != c.vault
    requires var p := Parsed(c.lib, text).value;
             && p.inputs[0].leaves[0].value.script == c.script
             && Copied(c.lib, p).Some? && OneInput(Copied(c.lib, p).value)
             && Honest(c, p, Copied(c.lib, p).value, remote, c.arkade, s)
             && c.lib.encode(Appended(Copied(c.lib, p).value, s)).Some?
             && Parsed(c.lib, c.lib.encode(Appended(Copied(c.lib, p).value, s)).value).Some?
    ensures ArkadeAnswer(c, remote, text) ==
            c.lib.encode(Appended(Copied(c.lib, Parsed(c.lib, text).value).value, s))
  {
    hide NewSignature, PsbtGuard.Stage, Adds, ExactRoutine, RoundTrips;
    var p := Parsed(c.lib, text).value;
    var copy := Copied(c.lib, p).value;
    ExactDistinct(c, p, TwoKeys(c));
    HonestResponse(c.lib, p, remote(copy).value, c.arkade, s);
    HonestStage(c.lib, text, remote, c.arkade, s);
    var out := c.lib.encode(Appended(copy, s)).value;
    StillAppended(c.lib, text, p, copy, s, out);
    ThreeExact(c, p, Parsed(c.lib, out).value, s);
  }

  lemma ExactDistinct(c: Config, p: Psbt, keys: seq<Option<Bytes>>)
    requires ExactRoutine(c.lib, p, c.script, keys)
    ensures HasLeaf(p) && AllDistinct(p.inputs[0].sigs) && None !in p.inputs[0].sigs
  {
    ExactRoutineMeans(c.lib, p, c.script, keys);
    hide ExactRoutine;
  }

  lemma StillAppended(lib: Library, text: Text, p: Psbt, copy: Psbt, s: SpendSig, out: Text)
    requires RoundTrips(lib) && lib.decode(text) == Some(p) && OneInput(p) && Copied(lib, p) == Some(copy)
    requires OneInput(copy) && lib.encode(Appended(copy, s)) == Some(out) && lib.decode(out).Some?
    requires |s.key| == 32 && |s.signature| == 64 && s.sigHash == 0
    requires exists leaf: Bytes :: s.leafHash == lib.leafHash(leaf)
    ensures var q := lib.decode(out).value;
            && |q.inputs| == 1 && q == p.(inputs := [p.inputs[0].(sigs := q.inputs[0].sigs)])
            && Adds(p.inputs[0].sigs, q.inputs[0].sigs, Some(s))
  {
    hide Reordered, Adds;
    assert ReadsBack(lib, p);
    assert Encodable(lib, s);
    assert lib.decode(lib.encode(p).value) == Some(copy);
    assert ReadsBack(lib, Appended(copy, s));
    AppendedThenRead(p, copy, s, lib.decode(out).value);
  }

  /** Two routine signatures and a valid one of a third key. */
  lemma ThreeExact(c: Config, p: Psbt, q: Psbt, s: SpendSig)
    requires ExactRoutine(c.lib, p, c.script, TwoKeys(c)) && c.arkade != c.phone && c.arkade != c.vault
    requires HasLeaf(p) && p.inputs[0].leaves[0].value.script == c.script
    requires |q.inputs| == 1 && q == p.(inputs := [p.inputs[0].(sigs := q.inputs[0].sigs)])
    requires Adds(p.inputs[0].sigs, q.inputs[0].sigs, Some(s))
    requires s.key == c.arkade && s.sigHash == 0 && s.leafHash == c.lib.leafHash(c.script)
    requires c.lib.verify(p.tx, p.inputs[0].utxo.value, c.script, c.arkade, s.signature)
    ensures ExactRoutine(c.lib, q, c.script, ThreeKeys(c))
  {
    hide RoutineSig, Adds;
    ThreeDistinct(c, p);
    var x, z, t := p.inputs[0].sigs, q.inputs[0].sigs, Some(s);
    assert KeyOf(t) == Some(c.arkade);
    ThirdIsRoutine(c, p, s);
    AddedThird(x, z, t);
    forall i | 0 <= i < 3
      ensures RoutineSig(c.lib, q, c.script, z[i]) && KeyOf(z[i]) in ThreeKeys(c)
    {
      RoutineSame(c.lib, p, q, c.script, z[i]);
      assert z[i] == x[0] || z[i] == x[1] || z[i] == t;
    }
    hide ThreeKeys, TwoKeys;
    assert SigsMatch(c.lib, q, c.script, ThreeKeys(c));
  }

  lemma ThirdIsRoutine(c: Config, p: Psbt, s: SpendSig)
    requires OneInput(p) && p.inputs[0].utxo.Some?
    requires s.key == c.arkade && s.sigHash == 0 && s.leafHash == c.lib.leafHash(c.script)
    requires c.lib.verify(p.tx, p.inputs[0].utxo.value, c.script, c.arkade, s.signature)
    ensures RoutineSig(c.lib, p, c.script, Some(s))
  {
  }

  lemma RoutineSame(lib: Library, p: Psbt, q: Psbt, script: Bytes, s: Option<SpendSig>)
    requires OneInput(p) && p.inputs[0].utxo.Some? && |q.inputs| == 1
    requires q == p.(inputs := [p.inputs[0].(sigs := q.inputs[0].sigs)])
    ensures OneInput(q) && q.inputs[0].utxo.Some?
    ensures RoutineSig(lib, q, script, s) <==> RoutineSig(lib, p, script, s)
  {
  }

  lemma ThreeItems<T>(x: seq<T>, z: seq<T>, t: T)
    requires |x| == 2 && multiset(z) == multiset(x) + multiset{t}
    ensures |z| == 3 && multiset{z[0], z[1], z[2]} == multiset{x[0], x[1], t}
  {
    assert x == [x[0], x[1]];
    assert |z| == |multiset(z)| == 3;
    assert z == [z[0], z[1], z[2]];
  }

  /** Two items and a third that is different, in another order. */
  lemma AddedThird(x: seq<Option<SpendSig>>, z: seq<Option<SpendSig>>, t: Option<SpendSig>)
    requires |x| == 2 && Adds(x, z, t)
    requires KeyOf(x[0]) != KeyOf(x[1]) && KeyOf(x[0]) != KeyOf(t) && KeyOf(x[1]) != KeyOf(t)
    ensures |z| == 3 && forall i :: 0 <= i < 3 ==> z[i] == x[0] || z[i] == x[1] || z[i] == t
    ensures forall i, j :: 0 <= i < j < 3 ==> KeyOf(z[i]) != KeyOf(z[j])
  {
    ThreeItems(x, z, t);
    hide Adds, KeyOf;
    ThreeOf(x[0], x[1], t, z[0], z[1], z[2]);
  }

  lemma ThreeDistinct(c: Config, p: Psbt)
    requires ExactRoutine(c.lib, p, c.script, TwoKeys(c)) && c.arkade != c.phone && c.arkade != c.vault
    ensures ThreeKeys(c) != [] && None !in ThreeKeys(c) && AllDistinct(ThreeKeys(c))
    ensures forall k :: k in ThreeKeys(c) <==> k in TwoKeys(c) || k == Some(c.arkade)
  {
    assert TwoKeys(c)[0] != TwoKeys(c)[1];
  }

  /** Three different items in another order are still different, and the same. */
  lemma ThreeOf<T>(a: T, b: T, c: T, x: T, y: T, z: T)
    requires a != b && a != c && b != c && multiset{x, y, z} == multiset{a, b, c}
    ensures x != y && x != z && y != z
    ensures x in {a, b, c} && y in {a, b, c} && z in {a, b, c}
  {
    var m := multiset{a, b, c};
    assert m[a] == 1 && m[b] == 1 && m[c] == 1;
    assert x in multiset{x, y, z} && y in multiset{x, y, z} && z in multiset{x, y, z};
    assert multiset{x, y, z}[x] <= 1 && multiset{x, y, z}[y] <= 1;
  }

  // ---- the service's call ----

  /** Authorize, once the request is verified and classified. */
  method Authorize(c: Config, ledger: Ledger, req: Request, vaultRemote: Remote, arkadeRemote: Remote,
                   period: Text, reserveIo: Io, vaultIo: Io, signedIo: Io, cancelled: bool)
    returns (r: IssueResult)
    requires RoundTrips(c.lib) && req.staged
    requires Inv(ledger.Now()) && Linked(c, ledger.Now())
    modifies ledger
    ensures Inv(ledger.Now()) && Linked(c, ledger.Now())
    ensures r.Signed? || r.SignedLate? ==> ExactCompletion(c, req.psbt, r.text) && AllSigned(c, req.psbt, r.text)
  {
    hide ExactCompletion, AllSigned;
    var w := World(period, reserveIo, t => VaultAnswer(c, vaultRemote, t), vaultIo,
                   t => ArkadeAnswer(c, arkadeRemote, t), signedIo, cancelled);
    ghost var before := ledger.Now();
    r := ledger.IssueSequential(req, w);
    CallGuarded(c, req, w, vaultRemote, arkadeRemote);
    RunKeeps(before, CallActions(req, w));
    RunLinked(c, before, CallActions(req, w));
    CallReplies(before, req, w);
    StoredIsExact(c, ledger.Now(), req, r);
    if !r.Refused? {
      CompletionVerifies(c, req.psbt, r.text);
    }
  }

  lemma CallGuarded(c: Config, req: Request, w: World, vaultRemote: Remote, arkadeRemote: Remote)
    requires RoundTrips(c.lib) && req.staged
    requires forall t: Text :: w.private(t) == VaultAnswer(c, vaultRemote, t)
    requires forall t: Text :: w.public(t) == ArkadeAnswer(c, arkadeRemote, t)
    ensures AllGuarded(c, CallActions(req, w))
  {
    hide VaultAnswer, ArkadeAnswer, VaultDelta, ArkadeDelta, RoundTrips;
    forall t: Text | w.private(t).Some?
      ensures VaultDelta(c, t, w.private(t).value)
    {
      VaultAnswerDelta(c, vaultRemote, t);
    }
    forall t: Text | w.public(t).Some?
      ensures ArkadeDelta(c, t, w.public(t).value)
    {
      ArkadeAnswerDelta(c, arkadeRemote, t);
    }
  }

  lemma CallReplies(m: Machine, req: Request, w: World)
    requires Inv(m) && m.call.None?
    ensures Replying(Run(m, CallActions(req, w)), req)
  {
    var acts := CallActions(req, w);
    var begun := Step(m, acts[0]);
    StepKeeps(m, acts[0]);
    assert Replying(begun, req);
    hide Inv, Replying, Step;
    RunReplies(begun, req, acts[1..]);
  }

  lemma StoredIsExact(c: Config, m: Machine, req: Request, r: IssueResult)
    requires Linked(c, m) && ReplyStored(m.rows, req, r)
    ensures r.Signed? || r.SignedLate? ==> ExactCompletion(c, req.psbt, r.text)
  {
    FindIndex(m.rows, req.key);
    hide VaultDelta, ArkadeDelta, ExactCompletion, CallLinked, Find;
    if !r.Refused? {
      var row := RowAt(m.rows, req.key).value;
      assert RowLinked(c, row);
      DeltasComplete(c, row.request, row.vaultPsbt.value, r.text);
    }
  }
}
