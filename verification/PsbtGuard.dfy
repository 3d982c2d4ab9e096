/** Each signing stage adds one verified signature to the stored packet and
    nothing else, whatever the signer returns. */
module PsbtGuard {
  import opened Common
  import opened Transactions
  import opened Psbts
  import opened Issuance

  const SIGNATURE_BYTES: nat := 64
  const KEY_BYTES: nat := 32

  datatype GuardError =
    | StageUnreadable | NotCopied | NotWritten | SignerFailed
    | OneInputRequired | MalformedResponse | KeyRequired | NoLeaf | ExtraSignature | NoSignature
    | StageInputs | WrongCount | NoKey | DuplicateKey | MalformedSignature | UnexpectedSignature
    | InvalidSignature

  /** The packet library, leaf hashing, the signature check over a transaction and
      the check of the spent output: parameters. */
  datatype Library = Library(
    encode: Psbt -> Option<Text>,
    decode: Text -> Option<Psbt>,
    prevoutVerified: Psbt -> bool,
    leafHash: Bytes -> Bytes,
    verify: (Tx, TxOut, Bytes, Bytes, Bytes) -> bool)

  /** A remote signer: any response packet, possibly missing. */
  type Remote = Psbt -> Option<Psbt>

  // ---- finding the new signature ----

  /** The first original equal to s. */
  function IndexOriginal(before: seq<Option<SpendSig>>, s: Option<SpendSig>): Option<nat> {
    if s.None? || before == [] then None
    else if before[0] == s then Some(0)
    else
      match IndexOriginal(before[1..], s)
      case None => None
      case Some(i) => Some(i + 1)
  }

  method IndexOriginalSig(before: seq<Option<SpendSig>>, s: Option<SpendSig>) returns (r: int)
    ensures r == if IndexOriginal(before, s).None? then -1 else IndexOriginal(before, s).value
    ensures -1 <= r < |before|
  {
    IndexFound(before, s);
    if s.None? {
      return -1;
    }
    for i := 0 to |before|
      invariant forall j :: 0 <= j < i ==> before[j] != s
    {
      var want := before[i];
      if want.Some? && want == s {
        return i;
      }
    }
    return -1;
  }

  lemma {:induction false} IndexFound(before: seq<Option<SpendSig>>, s: Option<SpendSig>)
    ensures match IndexOriginal(before, s)
            case None => s.None? || forall j :: 0 <= j < |before| ==> before[j] != s
            case Some(i) => i < |before| && before[i] == s && forall j :: 0 <= j < i ==> before[j] != s
  {
    if s.Some? && before != [] {
      IndexFound(before[1..], s);
    }
  }

  /** The response's signatures that no unmatched original accounts for. */
  function Extras(before: seq<Option<SpendSig>>, matched: set<int>, ss: seq<Option<SpendSig>>): seq<Option<SpendSig>>
    decreases |ss|
  {
    if ss == [] then []
    else
      var i := IndexOriginal(before, ss[0]);
      if i.Some? && i.value !in matched then Extras(before, matched + {i.value}, ss[1..])
      else [ss[0]] + Extras(before, matched, ss[1..])
  }

  /** A signature of the expected key over the submitted packet's transaction. */
  predicate Expected(lib: Library, p: Psbt, key: Bytes, s: Option<SpendSig>)
    requires |p.inputs| == 1 && p.inputs[0].utxo.Some? && |p.inputs[0].leaves| == 1 && p.inputs[0].leaves[0].Some?
  {
    var leaf := p.inputs[0].leaves[0].value.script;
    && s.Some? && |s.value.signature| == SIGNATURE_BYTES
    && s.value.key == key && s.value.leafHash == lib.leafHash(leaf) && s.value.sigHash == SIGHASH_DEFAULT
    && lib.verify(p.tx, p.inputs[0].utxo.value, leaf, key, s.value.signature)
  }

  function Candidates(lib: Library, p: Psbt, key: Bytes, ss: seq<Option<SpendSig>>): (r: seq<SpendSig>)
    requires |p.inputs| == 1 && p.inputs[0].utxo.Some? && |p.inputs[0].leaves| == 1 && p.inputs[0].leaves[0].Some?
    ensures forall s :: s in r ==> Some(s) in ss && Expected(lib, p, key, Some(s))
  {
    if ss == [] then []
    else (if Expected(lib, p, key, ss[0]) then [ss[0].value] else []) + Candidates(lib, p, key, ss[1..])
  }

  predicate OneInput(p: Psbt) {
    |p.inputs| == 1 && |p.tx.ins| == 1
  }

  predicate HasLeaf(p: Psbt) {
    OneInput(p) && p.inputs[0].utxo.Some? && |p.inputs[0].leaves| == 1 && p.inputs[0].leaves[0].Some?
  }

  /** extractVerifiedSignerSig, as a relation between packets and result. */
  function NewSignature(lib: Library, submitted: Psbt, response: Option<Psbt>, key: Bytes):
      Result<SpendSig, GuardError> {
    if !OneInput(submitted) then Err(OneInputRequired)
    else if response.None? || !OneInput(response.value) then Err(MalformedResponse)
    else if |key| != KEY_BYTES then Err(KeyRequired)
    else if !HasLeaf(submitted) then Err(NoLeaf)
    else
      var extras := Extras(submitted.inputs[0].sigs, {}, response.value.inputs[0].sigs);
      var found := Candidates(lib, submitted, key, extras);
      if |found| == 0 then Err(NoSignature) else if |found| > 1 then Err(ExtraSignature) else Ok(found[0])
  }

  method ExtractVerifiedSignerSig(lib: Library, submitted: Psbt, response: Option<Psbt>, key: Bytes)
    returns (r: Result<SpendSig, GuardError>)
    ensures r == NewSignature(lib, submitted, response, key)
  {
    if |submitted.inputs| != 1 || |submitted.tx.ins| != 1 {
      return Err(OneInputRequired);
    }
    if response.None? || |response.value.inputs| != 1 || |response.value.tx.ins| != 1 {
      return Err(MalformedResponse);
    }
    if |key| != KEY_BYTES {
      return Err(KeyRequired);
    }
    var input := submitted.inputs[0];
    if input.utxo.None? || |input.leaves| != 1 || input.leaves[0].None? {
      return Err(NoLeaf);
    }
    var extras: seq<Option<SpendSig>> := [];
    var matched: set<int> := {};
    var ss := response.value.inputs[0].sigs;
    for k := 0 to |ss|
      invariant Extras(input.sigs, {}, ss) == extras + Extras(input.sigs, matched, ss[k..])
    {
      var i := IndexOriginalSig(input.sigs, ss[k]);
      assert ss[k..][0] == ss[k] && ss[k..][1..] == ss[k + 1..];
      if i >= 0 && i !in matched {
        matched := matched + {i};
      } else {
        assert extras + ([ss[k]] + Extras(input.sigs, matched, ss[k + 1..]))
               == (extras + [ss[k]]) + Extras(input.sigs, matched, ss[k + 1..]);
        extras := extras + [ss[k]];
      }
    }
    assert ss[|ss|..] == [] && extras + [] == extras;
    r := PickOne(lib, submitted, extras, key);
  }

  /** The second loop: exactly one expected signature among the extras. */
  method PickOne(lib: Library, submitted: Psbt, extras: seq<Option<SpendSig>>, key: Bytes)
    returns (r: Result<SpendSig, GuardError>)
    requires HasLeaf(submitted)
    ensures var found := Candidates(lib, submitted, key, extras);
            r == if |found| == 0 then Err(NoSignature) else if |found| > 1 then Err(ExtraSignature) else Ok(found[0])
  {
    hide Expected, Candidates;
    var found: Option<SpendSig> := None;
    CandidatesEnd(lib, submitted, key);
    for k := 0 to |extras|
      invariant Candidates(lib, submitted, key, extras)
                == (if found.None? then [] else [found.value]) + Candidates(lib, submitted, key, extras[k..])
    {
      CandidateStep(lib, submitted, key, extras, k);
      if Expected(lib, submitted, key, extras[k]) {
        if found.Some? {
          return Err(ExtraSignature);
        }
        found := Some(extras[k].value);
      }
    }
    assert extras[|extras|..] == [];
    if found.None? {
      return Err(NoSignature);
    }
    return Ok(found.value);
  }

  lemma CandidatesEnd(lib: Library, p: Psbt, key: Bytes)
    requires HasLeaf(p)
    ensures Candidates(lib, p, key, []) == []
  {
  }

  lemma CandidateStep(lib: Library, p: Psbt, key: Bytes, ss: seq<Option<SpendSig>>, k: nat)
    requires HasLeaf(p) && k < |ss|
    ensures Expected(lib, p, key, ss[k]) ==> ss[k].Some?
    ensures Candidates(lib, p, key, ss[k..]) ==
            (if Expected(lib, p, key, ss[k]) then [ss[k].value] else []) + Candidates(lib, p, key, ss[k + 1..])
  {
    assert ss[k..][0] == ss[k] && ss[k..][1..] == ss[k + 1..];
    ExpectedIsSome(lib, p, key, ss[k]);
    hide Expected;
  }

  lemma ExpectedIsSome(lib: Library, p: Psbt, key: Bytes, s: Option<SpendSig>)
    requires HasLeaf(p)
    ensures Expected(lib, p, key, s) ==> s.Some?
  {
  }

  // ---- what the packet library promises ----

  /** The packet with one more signature. */
  function Appended(p: Psbt, s: SpendSig): Psbt
    requires |p.inputs| == 1
  {
    p.(inputs := [p.inputs[0].(sigs := p.inputs[0].sigs + [Some(s)])])
  }

  /** A packet written and read again. */
  function Copied(lib: Library, p: Psbt): Option<Psbt> {
    match lib.encode(p)
    case None => None
    case Some(text) => lib.decode(text)
  }

  /** The same packet, but for the order of each input's signatures. */
  predicate Reordered(p: Psbt, q: Psbt) {
    && q.tx == p.tx && q.others == p.others && |q.inputs| == |p.inputs|
    && forall i :: 0 <= i < |p.inputs| ==>
         && q.inputs[i] == p.inputs[i].(sigs := q.inputs[i].sigs)
         && multiset(q.inputs[i].sigs) == multiset(p.inputs[i].sigs)
  }

  /** If it can be read again at all, it is the same packet. */
  predicate ReadsBack(lib: Library, p: Psbt) {
    Copied(lib, p).Some? ==> Reordered(p, Copied(lib, p).value)
  }

  /** A signature of the sizes the format has room for, over some leaf. */
  ghost predicate Encodable(lib: Library, s: SpendSig) {
    && |s.key| == KEY_BYTES && |s.signature| == SIGNATURE_BYTES && s.sigHash == SIGHASH_DEFAULT
    && exists leaf: Bytes :: s.leafHash == lib.leafHash(leaf)
  }

  /** Writing and reading loses nothing of a packet that was read, nor of one with a
      signature appended; it may sort signatures, and may fail. */
  ghost predicate RoundTrips(lib: Library) {
    && (forall t: Text :: lib.decode(t).Some? ==> ReadsBack(lib, lib.decode(t).value))
    && (forall t: Text, s: SpendSig ::
          lib.decode(t).Some? && OneInput(lib.decode(t).value) && Encodable(lib, s) ==>
            ReadsBack(lib, Appended(lib.decode(t).value, s)))
  }

  // ---- one stage ----

  function Parsed(lib: Library, text: Text): Option<Psbt> {
    match lib.decode(text)
    case None => None
    case Some(p) => if lib.prevoutVerified(p) then Some(p) else None
  }

  function Stage(lib: Library, stored: Text, remote: Remote, key: Bytes): Result<Text, GuardError> {
    match Parsed(lib, stored)
    case None => Err(StageUnreadable)
    case Some(submitted) =>
      match Copied(lib, submitted)
      case None => Err(NotCopied)
      case Some(copy) =>
        var response := remote(copy);
        if response.None? then Err(GuardError.SignerFailed)
        else
          var added :- NewSignature(lib, submitted, response, key);
          if |copy.inputs| != 1 then Err(NotCopied)
          else
            match lib.encode(Appended(copy, added))
            case None => Err(NotWritten)
            case Some(text) => Ok(text)
  }

  /** signExactStage: the signer works on a copy, and of its response only one
      verified signature is taken over. */
  method SignExactStage(lib: Library, stored: Text, remote: Remote, key: Bytes)
    returns (r: Result<Text, GuardError>)
    requires RoundTrips(lib)
    ensures r == Stage(lib, stored, remote, key)
    ensures r.Ok? ==> StageDelta(lib, stored, r.value, key)
  {
    hide NewSignature, StageDelta;
    var parsed := lib.decode(stored);
    if parsed.None? || !lib.prevoutVerified(parsed.value) {
      return Err(StageUnreadable);
    }
    var submitted := parsed.value;
    var work := ClonePacket(lib, submitted);
    if work.None? {
      return Err(NotCopied);
    }
    var response := remote(work.value);
    if response.None? {
      return Err(GuardError.SignerFailed);
    }
    var added := ExtractVerifiedSignerSig(lib, submitted, response, key);
    if added.Err? {
      return Err(added.error);
    }
    var out := ClonePacket(lib, submitted);
    SignatureNeedsInput(lib, submitted, response, key);
    assert ReadsBack(lib, submitted);
    var sigs := out.value.inputs[0].sigs + [Some(added.value)];
    var text := lib.encode(out.value.(inputs := [out.value.inputs[0].(sigs := sigs)]));
    if text.None? {
      return Err(NotWritten);
    }
    StageAddsOne(lib, stored, remote, key);
    return Ok(text.value);
  }

  method ClonePacket(lib: Library, p: Psbt) returns (r: Option<Psbt>)
    ensures r == Copied(lib, p)
  {
    var encoded := lib.encode(p);
    if encoded.None? {
      return None;
    }
    return lib.decode(encoded.value);
  }

  // ---- which signature is taken over ----

  /** The taken signature came with the response, has the expected key, leaf, type
      and length, and the library verified it over the submitted transaction. */
  lemma TakenSignature(lib: Library, submitted: Psbt, response: Option<Psbt>, key: Bytes)
    requires NewSignature(lib, submitted, response, key).Ok?
    ensures |submitted.inputs| == 1 && submitted.inputs[0].utxo.Some? && |submitted.inputs[0].leaves| == 1
    ensures submitted.inputs[0].leaves[0].Some? && response.Some? && |response.value.inputs| == 1
    ensures var s := NewSignature(lib, submitted, response, key).value;
            var leaf := submitted.inputs[0].leaves[0].value.script;
            && Some(s) in response.value.inputs[0].sigs
            && s.key == key && |s.signature| == 64 && s.sigHash == 0 && s.leafHash == lib.leafHash(leaf)
            && lib.verify(submitted.tx, submitted.inputs[0].utxo.value, leaf, key, s.signature)
  {
    var before, ss := submitted.inputs[0].sigs, response.value.inputs[0].sigs;
    ExtrasFrom(before, {}, ss);
    hide Extras;
    var s := NewSignature(lib, submitted, response, key).value;
    assert s in Candidates(lib, submitted, key, Extras(before, {}, ss));
  }

  lemma {:induction false} ExtrasFrom(before: seq<Option<SpendSig>>, matched: set<int>, ss: seq<Option<SpendSig>>)
    ensures forall x :: x in Extras(before, matched, ss) ==> x in ss
    decreases |ss|
  {
    if ss != [] {
      var i := IndexOriginal(before, ss[0]);
      ExtrasFrom(before, matched, ss[1..]);
      if i.Some? {
        ExtrasFrom(before, matched + {i.value}, ss[1..]);
      }
    }
  }

  /** Of distinct originals, those not matched yet. */
  predicate LeftOver(before: seq<Option<SpendSig>>, matched: set<int>, left: set<Option<SpendSig>>) {
    && (forall i :: 0 <= i < |before| && i !in matched ==> before[i] in left)
    && (forall x :: x in left ==> exists i :: 0 <= i < |before| && i !in matched && before[i] == x)
  }

  /** What remains of a response is what it holds beyond the originals. */
  lemma {:induction false} ExtrasAre(
      before: seq<Option<SpendSig>>, matched: set<int>, left: set<Option<SpendSig>>, ss: seq<Option<SpendSig>>)
    requires AllDistinct(before) && (forall i :: 0 <= i < |before| ==> before[i].Some?)
    requires LeftOver(before, matched, left)
    ensures multiset(Extras(before, matched, ss)) == multiset(ss) - multiset(left)
    decreases |ss|
  {
    hide Extras, IndexOriginal, LeftOver;
    if ss == [] {
      NoExtras(before, matched);
    } else {
      var x, rest := ss[0], ss[1..];
      ExtrasStep(before, matched, ss);
      LeftIsUnmatched(before, matched, left, x);
      var i := IndexOriginal(before, x);
      if i.Some? && i.value !in matched {
        Unmatched(before, matched, left, i.value);
        ExtrasAre(before, matched + {i.value}, left - {x}, rest);
        TakeMatched(x, rest, left, Extras(before, matched + {i.value}, rest));
      } else {
        ExtrasAre(before, matched, left, rest);
        KeepExtra(x, rest, left, Extras(before, matched, rest));
      }
      assert ss == [x] + rest;
    }
  }

  lemma NoExtras(before: seq<Option<SpendSig>>, matched: set<int>)
    ensures Extras(before, matched, []) == []
  {
  }

  /** Of distinct originals, the first equal one is the only one. */
  lemma LeftIsUnmatched(
      before: seq<Option<SpendSig>>, matched: set<int>, left: set<Option<SpendSig>>, x: Option<SpendSig>)
    requires AllDistinct(before) && (forall i :: 0 <= i < |before| ==> before[i].Some?)
    requires LeftOver(before, matched, left)
    ensures var i := IndexOriginal(before, x);
            && (x in left <==> i.Some? && i.value !in matched)
            && (i.Some? ==> i.value < |before| && before[i.value] == x)
  {
    IndexFound(before, x);
    hide IndexOriginal;
  }

  lemma TakeMatched<T>(x: T, rest: seq<T>, left: set<T>, extras: seq<T>)
    requires x in left && multiset(extras) == multiset(rest) - multiset(left - {x})
    ensures multiset(extras) == multiset([x] + rest) - multiset(left)
  {
    assert multiset(left) == multiset(left - {x}) + multiset{x};
    assert multiset([x] + rest) == multiset{x} + multiset(rest);
  }

  lemma KeepExtra<T>(x: T, rest: seq<T>, left: set<T>, extras: seq<T>)
    requires x !in left && multiset(extras) == multiset(rest) - multiset(left)
    ensures multiset([x] + extras) == multiset([x] + rest) - multiset(left)
  {
    assert multiset([x] + rest) == multiset{x} + multiset(rest);
    assert multiset([x] + extras) == multiset{x} + multiset(extras);
  }

  lemma ExtrasStep(before: seq<Option<SpendSig>>, matched: set<int>, ss: seq<Option<SpendSig>>)
    requires ss != []
    ensures Extras(before, matched, ss) ==
            var i := IndexOriginal(before, ss[0]);
            if i.Some? && i.value !in matched then Extras(before, matched + {i.value}, ss[1..])
            else [ss[0]] + Extras(before, matched, ss[1..])
  {
  }

  lemma Unmatched(before: seq<Option<SpendSig>>, matched: set<int>, left: set<Option<SpendSig>>, i: nat)
    requires AllDistinct(before) && LeftOver(before, matched, left) && i < |before| && i !in matched
    ensures LeftOver(before, matched + {i}, left - {before[i]})
  {
    forall x | x in left - {before[i]}
      ensures exists j :: 0 <= j < |before| && j !in matched + {i} && before[j] == x
    {
      var j :| 0 <= j < |before| && j !in matched && before[j] == x;
    }
  }

  /** An honest signer is always served: a response with the submitted signatures,
      in any order, and one more that is valid, gives that one. */
  lemma HonestResponse(lib: Library, submitted: Psbt, response: Psbt, key: Bytes, s: SpendSig)
    requires |submitted.inputs| == 1 && |submitted.tx.ins| == 1 && |response.inputs| == 1 && |response.tx.ins| == 1
    requires submitted.inputs[0].utxo.Some? && |submitted.inputs[0].leaves| == 1
    requires submitted.inputs[0].leaves[0].Some? && |key| == 32
    requires AllDistinct(submitted.inputs[0].sigs)
    requires forall i :: 0 <= i < |submitted.inputs[0].sigs| ==> submitted.inputs[0].sigs[i].Some?
    requires Adds(submitted.inputs[0].sigs, response.inputs[0].sigs, Some(s))
    requires var leaf := submitted.inputs[0].leaves[0].value.script;
             && s.key == key && |s.signature| == 64 && s.sigHash == 0 && s.leafHash == lib.leafHash(leaf)
             && lib.verify(submitted.tx, submitted.inputs[0].utxo.value, leaf, key, s.signature)
    ensures NewSignature(lib, submitted, Some(response), key) == Ok(s)
  {
    var before, ss := submitted.inputs[0].sigs, response.inputs[0].sigs;
    var left := Members(before);
    ExtrasAre(before, {}, left, ss);
    DistinctMultiset(before);
    hide Extras;
    OneBeyond(before, ss, Extras(before, {}, ss), Some(s));
    hide AllDistinct, Adds;
    OneCandidate(lib, submitted, key, s);
  }

  lemma OneBeyond<T>(before: seq<T>, ss: seq<T>, extras: seq<T>, t: T)
    requires multiset(ss) == multiset(before) + multiset{t}
    requires multiset(extras) == multiset(ss) - multiset(before)
    ensures extras == [t]
  {
    assert multiset(extras) == multiset{t};
    assert |extras| == |multiset(extras)| == 1;
    assert extras[0] in multiset(extras);
  }

  lemma OneCandidate(lib: Library, p: Psbt, key: Bytes, s: SpendSig)
    requires HasLeaf(p) && Expected(lib, p, key, Some(s))
    ensures Candidates(lib, p, key, [Some(s)]) == [s]
  {
    hide Expected;
    var ss := [Some(s)];
    assert ss[1..] == [] && ss[0] == Some(s);
    assert Candidates(lib, p, key, ss) == [s] + Candidates(lib, p, key, ss[1..]);
  }

  lemma {:induction false} DistinctMultiset(xs: seq<Option<SpendSig>>)
    requires AllDistinct(xs)
    ensures multiset(Members(xs)) == multiset(xs)
  {
    if xs == [] {
      assert Members(xs) == {};
    } else {
      var n := |xs| - 1;
      DistinctMultiset(xs[..n]);
      assert xs == xs[..n] + [xs[n]];
      assert Members(xs) == Members(xs[..n]) + {xs[n]};
      assert xs[n] !in Members(xs[..n]);
    }
  }

  lemma SignatureNeedsInput(lib: Library, submitted: Psbt, response: Option<Psbt>, key: Bytes)
    requires NewSignature(lib, submitted, response, key).Ok?
    ensures HasLeaf(submitted) && Expected(lib, submitted, key, Some(NewSignature(lib, submitted, response, key).value))
    ensures Encodable(lib, NewSignature(lib, submitted, response, key).value)
  {
    var extras := Extras(submitted.inputs[0].sigs, {}, response.value.inputs[0].sigs);
    assert NewSignature(lib, submitted, response, key).value in Candidates(lib, submitted, key, extras);
  }

  /** The signatures are those before and one more, s. */
  predicate Adds(before: seq<Option<SpendSig>>, after: seq<Option<SpendSig>>, s: Option<SpendSig>) {
    multiset(after) == multiset(before) + multiset{s}
  }

  /** What a stage may do to a packet: add one signature of the key that is valid
      over the packet's own transaction, and nothing else. */
  predicate OneSignatureAdded(lib: Library, before: Psbt, after: Psbt, key: Bytes) {
    && HasLeaf(before) && |after.inputs| == 1
    && after == before.(inputs := [before.inputs[0].(sigs := after.inputs[0].sigs)])
    && exists s :: s in after.inputs[0].sigs
                   && Expected(lib, before, key, s) && Adds(before.inputs[0].sigs, after.inputs[0].sigs, s)
  }

  /** The same for the texts: the stored one is readable and its spent output
      verified; the new one may be readable. */
  predicate StageDelta(lib: Library, before: Text, after: Text, key: Bytes) {
    && lib.decode(before).Some? && lib.prevoutVerified(lib.decode(before).value)
    && (lib.decode(after).Some? ==> OneSignatureAdded(lib, lib.decode(before).value, lib.decode(after).value, key))
  }

  lemma AppendedThenRead(p: Psbt, copy: Psbt, s: SpendSig, after: Psbt)
    requires |p.inputs| == 1 && Reordered(p, copy) && Reordered(Appended(copy, s), after)
    ensures |after.inputs| == 1 && after == p.(inputs := [p.inputs[0].(sigs := after.inputs[0].sigs)])
    ensures Some(s) in after.inputs[0].sigs && Adds(p.inputs[0].sigs, after.inputs[0].sigs, Some(s))
  {
    var sigs := after.inputs[0].sigs;
    assert multiset(sigs) == multiset(copy.inputs[0].sigs + [Some(s)]);
    assert Some(s) in multiset(sigs);
    assert after.inputs == [p.inputs[0].(sigs := sigs)];
  }

  /** Whatever the remote signer returns. */
  lemma StageAddsOne(lib: Library, stored: Text, remote: Remote, key: Bytes)
    requires RoundTrips(lib) && Stage(lib, stored, remote, key).Ok?
    ensures StageDelta(lib, stored, Stage(lib, stored, remote, key).value, key)
  {
    hide NewSignature, Expected, Encodable, Reordered, Adds, HasLeaf;
    var submitted := lib.decode(stored).value;
    var copy := Copied(lib, submitted).value;
    var response := remote(copy);
    SignatureNeedsInput(lib, submitted, response, key);
    LeafIsInput(submitted);
    assert ReadsBack(lib, submitted);
    SameInput(submitted, copy);
    var added := NewSignature(lib, submitted, response, key).value;
    assert lib.decode(lib.encode(submitted).value) == Some(copy);
    assert ReadsBack(lib, Appended(copy, added));
    if Copied(lib, Appended(copy, added)).Some? {
      AppendedThenRead(submitted, copy, added, Copied(lib, Appended(copy, added)).value);
    }
  }

  /** The same for a whole stage: a readable stored packet, a library that can copy
      and write it, and an honest answer give the copy with the signature added. */
  lemma HonestStage(lib: Library, stored: Text, remote: Remote, key: Bytes, s: SpendSig)
    requires Parsed(lib, stored).Some? && Copied(lib, Parsed(lib, stored).value).Some?
    requires var submitted := Parsed(lib, stored).value;
             var copy := Copied(lib, submitted).value;
             && OneInput(copy) && lib.encode(Appended(copy, s)).Some? && remote(copy).Some?
             && NewSignature(lib, submitted, remote(copy), key) == Ok(s)
    ensures var copy := Copied(lib, Parsed(lib, stored).value).value;
            Stage(lib, stored, remote, key) == Ok(lib.encode(Appended(copy, s)).value)
  {
    hide NewSignature;
  }

  lemma LeafIsInput(p: Psbt)
    requires HasLeaf(p)
    ensures OneInput(p)
  {
  }

  lemma SameInput(p: Psbt, q: Psbt)
    requires Reordered(p, q) && OneInput(p)
    ensures OneInput(q)
  {
  }

  // ---- exactly the routine signatures ----

  predicate RoutineSig(lib: Library, p: Psbt, script: Bytes, s: Option<SpendSig>)
    requires OneInput(p) && p.inputs[0].utxo.Some?
  {
    && s.Some? && s.value.sigHash == SIGHASH_DEFAULT && s.value.leafHash == lib.leafHash(script)
    && lib.verify(p.tx, p.inputs[0].utxo.value, script, s.value.key, s.value.signature)
  }

  predicate DistinctKeys(keys: seq<Option<Bytes>>) {
    && (forall i :: 0 <= i < |keys| ==> keys[i].Some?)
    && (forall i, j :: 0 <= i < j < |keys| ==> keys[i] != keys[j])
  }

  function KeyOf(s: Option<SpendSig>): Option<Bytes> {
    if s.Some? then Some(s.value.key) else None
  }

  /** One valid signature for each key, and no other. */
  predicate ExactRoutine(lib: Library, p: Psbt, script: Bytes, keys: seq<Option<Bytes>>) {
    && HasLeaf(p) && keys != [] && DistinctKeys(keys)
    && |p.inputs[0].sigs| == |keys|
    && SigsMatch(lib, p, script, keys)
  }

  /** Every signature is valid for one of the keys, no two for the same. */
  predicate SigsMatch(lib: Library, p: Psbt, script: Bytes, keys: seq<Option<Bytes>>)
    requires HasLeaf(p)
  {
    var sigs := p.inputs[0].sigs;
    && (forall i :: 0 <= i < |sigs| ==> RoutineSig(lib, p, script, sigs[i]) && KeyOf(sigs[i]) in keys)
    && (forall i, j :: 0 <= i < j < |sigs| ==> KeyOf(sigs[i]) != KeyOf(sigs[j]))
  }

  /** What acceptance means, over the packet and the library alone: as many
      signatures as keys, each with the leaf hash of the script and the default type,
      each verified over the packet's transaction under its key, and the keys are the
      given ones, no two alike. */
  lemma ExactRoutineMeans(lib: Library, p: Psbt, script: Bytes, keys: seq<Option<Bytes>>)
    ensures ExactRoutine(lib, p, script, keys) <==>
              && |p.inputs| == 1 && |p.tx.ins| == 1 && p.inputs[0].utxo.Some?
              && |p.inputs[0].leaves| == 1 && p.inputs[0].leaves[0].Some?
              && keys != [] && None !in keys && AllDistinct(keys) && |p.inputs[0].sigs| == |keys|
              && (forall i :: 0 <= i < |p.inputs[0].sigs| ==>
                    var s := p.inputs[0].sigs[i];
                    && s.Some? && s.value.sigHash == 0 && s.value.leafHash == lib.leafHash(script)
                    && lib.verify(p.tx, p.inputs[0].utxo.value, script, s.value.key, s.value.signature)
                    && Some(s.value.key) in keys)
              && (forall i, j :: 0 <= i < j < |p.inputs[0].sigs| ==>
                    p.inputs[0].sigs[i].Some? && p.inputs[0].sigs[j].Some?
                    && p.inputs[0].sigs[i].value.key != p.inputs[0].sigs[j].value.key)
  {
  }

  method VerifyExactRoutineSignatures(lib: Library, p: Psbt, script: Bytes, keys: seq<Option<Bytes>>)
    returns (r: Option<GuardError>)
    ensures r.None? <==> ExactRoutine(lib, p, script, keys)
    ensures r.None? ==>
              && |p.inputs| == 1 && p.inputs[0].utxo.Some?
              && forall i :: 0 <= i < |p.inputs[0].sigs| ==>
                   var s := p.inputs[0].sigs[i];
                   && s.Some? && s.value.sigHash == 0 && s.value.leafHash == lib.leafHash(script)
                   && lib.verify(p.tx, p.inputs[0].utxo.value, script, s.value.key, s.value.signature)
  {
    ExactRoutineMeans(lib, p, script, keys);
    hide RoutineSig;
    if |p.inputs| != 1 || |p.tx.ins| != 1 {
      return Some(StageInputs);
    }
    var sigs := p.inputs[0].sigs;
    if |keys| == 0 || |sigs| != |keys| {
      return Some(WrongCount);
    }
    if p.inputs[0].utxo.None? || |p.inputs[0].leaves| != 1 || p.inputs[0].leaves[0].None? {
      return Some(NoLeaf);
    }
    var expected: set<Option<Bytes>> := {};
    for k := 0 to |keys|
      invariant KeySet(keys[..k], expected) && DistinctKeys(keys[..k])
    {
      assert keys[..k + 1] == keys[..k] + [keys[k]];
      if keys[k].None? {
        return Some(NoKey);
      }
      if keys[k] in expected {
        return Some(DuplicateKey);
      }
      expected := expected + {keys[k]};
    }
    assert keys[..|keys|] == keys;
    KeysCounted(keys, expected);
    r := TickOff(lib, p, script, keys, expected);
  }

  ghost predicate KeySet(keys: seq<Option<Bytes>>, all: set<Option<Bytes>>) {
    forall x :: x in all <==> x in keys
  }

  /** The second loop: each signature ticks off a key that is still expected. */
  method TickOff(lib: Library, p: Psbt, script: Bytes, keys: seq<Option<Bytes>>, all: set<Option<Bytes>>)
    returns (r: Option<GuardError>)
    requires HasLeaf(p) && |p.inputs[0].sigs| == |keys| == |all| && KeySet(keys, all)
    ensures r.None? <==> SigsMatch(lib, p, script, keys)
  {
    hide RoutineSig;
    var sigs := p.inputs[0].sigs;
    var expected := all;
    for k := 0 to |sigs|
      invariant expected <= all && |expected| == |keys| - k
      invariant forall j :: 0 <= j < k ==> RoutineSig(lib, p, script, sigs[j]) && KeyOf(sigs[j]) in keys
      invariant forall i, j :: 0 <= i < j < k ==> KeyOf(sigs[i]) != KeyOf(sigs[j])
      invariant forall x :: x in all && x !in expected ==> exists j :: 0 <= j < k && KeyOf(sigs[j]) == x
      invariant forall j :: 0 <= j < k ==> KeyOf(sigs[j]) !in expected
    {
      var s := sigs[k];
      if s.None? || s.value.sigHash != SIGHASH_DEFAULT || s.value.leafHash != lib.leafHash(script) {
        NotRoutine(lib, p, script, s);
        return Some(MalformedSignature);
      }
      if KeyOf(s) !in expected {
        return Some(UnexpectedSignature);
      }
      if !lib.verify(p.tx, p.inputs[0].utxo.value, script, s.value.key, s.value.signature) {
        NotRoutine(lib, p, script, s);
        return Some(InvalidSignature);
      }
      IsRoutine(lib, p, script, s);
      expected := expected - {KeyOf(s)};
    }
    assert expected == {};
    return None;
  }

  lemma NotRoutine(lib: Library, p: Psbt, script: Bytes, s: Option<SpendSig>)
    requires OneInput(p) && p.inputs[0].utxo.Some?
    requires s.None? || s.value.sigHash != SIGHASH_DEFAULT || s.value.leafHash != lib.leafHash(script)
             || !lib.verify(p.tx, p.inputs[0].utxo.value, script, s.value.key, s.value.signature)
    ensures !RoutineSig(lib, p, script, s)
  {
  }

  lemma IsRoutine(lib: Library, p: Psbt, script: Bytes, s: Option<SpendSig>)
    requires OneInput(p) && p.inputs[0].utxo.Some? && s.Some?
    requires s.value.sigHash == SIGHASH_DEFAULT && s.value.leafHash == lib.leafHash(script)
    requires lib.verify(p.tx, p.inputs[0].utxo.value, script, s.value.key, s.value.signature)
    ensures RoutineSig(lib, p, script, s)
  {
  }

  lemma KeysCounted(keys: seq<Option<Bytes>>, all: set<Option<Bytes>>)
    requires DistinctKeys(keys) && KeySet(keys, all)
    ensures |all| == |keys|
  {
    DistinctCount(keys);
    assert all == Members(keys);
  }
}
