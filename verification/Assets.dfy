/** Introspection of the asset packet: counting, indexing and looking up the asset
    entries of an input or an output. */
module Assets {
  import opened Common
  import opened ScriptErrors
  import opened Int64
  import opened Numbers
  import opened BigNums
  import opened NumberCodec
  import opened Stacks
  import opened Opcodes
  import SVM = ScriptVM

  const MAX_GROUP_INDEX: nat := 65535
  const TXID_BYTES: nat := 32

  datatype AssetId = AssetId(txid: Bytes, index: nat)

  /** An asset input or output: the index of the transaction's input or output it
      sits at, and an amount. */
  datatype Slot = Slot(at: nat, amount: nat)

  datatype Group = Group(assetId: Option<AssetId>, inputs: seq<Slot>, outputs: seq<Slot>)

  datatype Side = In | Out

  /** An asset entry as scripts see it. */
  datatype Entry = Entry(id: AssetId, amount: nat)

  function Slots(g: Group, side: Side): seq<Slot> {
    if side == In then g.inputs else g.outputs
  }

  // ---- identities ----

  /** resolveAssetID: an explicit id must not name this transaction, and a fresh
      issuance is named after its position. */
  function Resolve(txHash: Bytes, k: nat, g: Group): Result<AssetId, ErrorCode> {
    match g.assetId
    case Some(id) => if id.txid == txHash then Err(InvalidStackOperation) else Ok(id)
    case None => if k > MAX_GROUP_INDEX then Err(InvalidStackOperation) else Ok(AssetId(txHash, k))
  }

  predicate AllResolve(txHash: Bytes, gs: seq<Group>) {
    forall k :: 0 <= k < |gs| ==> Resolve(txHash, k, gs[k]).Ok?
  }

  /** The identity of a fresh issuance belongs to no other group. */
  lemma FreshIsUnique(txHash: Bytes, gs: seq<Group>, i: nat, j: nat)
    requires AllResolve(txHash, gs) && i < |gs| && j < |gs| && gs[i].assetId.None?
    ensures Resolve(txHash, i, gs[i]) == Resolve(txHash, j, gs[j]) <==> i == j
  {
    assert Resolve(txHash, j, gs[j]).Ok?;
  }

  // ---- the entries at one index ----

  /** The amounts of the slots at index o, in order. */
  function Matching(slots: seq<Slot>, o: int): seq<nat> {
    if slots == [] then []
    else Matching(slots[..|slots| - 1], o) + if Last(slots).at == o then [Last(slots).amount] else []
  }

  lemma {:induction false} MatchingPrefix(slots: seq<Slot>, o: int, j: nat)
    requires j <= |slots|
    ensures Matching(slots[..j], o) <= Matching(slots, o)
    decreases |slots|
  {
    if j == |slots| {
      assert slots[..j] == slots;
    } else {
      MatchingPrefix(slots[..|slots| - 1], o, j);
      assert slots[..|slots| - 1][..j] == slots[..j];
    }
  }

  lemma MatchingNext(slots: seq<Slot>, o: int, j: nat)
    requires j < |slots|
    ensures Matching(slots[..j + 1], o) == Matching(slots[..j], o) + if slots[j].at == o then [slots[j].amount] else []
    ensures slots[j].at == o ==>
              var n := |Matching(slots[..j], o)|; n < |Matching(slots, o)| && Matching(slots, o)[n] == slots[j].amount
  {
    assert slots[..j + 1][..j] == slots[..j];
    MatchingPrefix(slots, o, j + 1);
  }

  function Tagged(id: AssetId, amounts: seq<nat>): (r: seq<Entry>)
    ensures |r| == |amounts| && forall i :: 0 <= i < |r| ==> r[i] == Entry(id, amounts[i])
  {
    if amounts == [] then [] else [Entry(id, amounts[0])] + Tagged(id, amounts[1..])
  }

  /** The asset entries at index o from group k on: group by group, in order. */
  function Entries(txHash: Bytes, gs: seq<Group>, k: nat, side: Side, o: int): seq<Entry>
    requires AllResolve(txHash, gs) && k <= |gs|
    decreases |gs| - k
  {
    if k == |gs| then []
    else
      Tagged(Resolve(txHash, k, gs[k]).value, Matching(Slots(gs[k], side), o)) + Entries(txHash, gs, k + 1, side, o)
  }

  // ---- what the opcodes compute ----

  function CountFrom(gs: seq<Group>, k: nat, side: Side, o: int): nat
    requires k <= |gs|
    decreases |gs| - k
  {
    if k == |gs| then 0 else |Matching(Slots(gs[k], side), o)| + CountFrom(gs, k + 1, side, o)
  }

  /** The t-th entry at index o; a group that does not resolve stops the search. */
  function EntryAt(txHash: Bytes, gs: seq<Group>, k: nat, side: Side, o: int, t: int): Result<Entry, ErrorCode>
    requires k <= |gs| && t >= 0
    decreases |gs| - k
  {
    if k == |gs| then Err(InvalidStackOperation)
    else
      var id :- Resolve(txHash, k, gs[k]);
      var amounts := Matching(Slots(gs[k], side), o);
      if t < |amounts| then Ok(Entry(id, amounts[t]))
      else EntryAt(txHash, gs, k + 1, side, o, t - |amounts|)
  }

  /** The amount of the first entry of an asset at index o. */
  function LookUp(txHash: Bytes, gs: seq<Group>, k: nat, side: Side, o: int, want: AssetId):
      Result<Option<nat>, ErrorCode>
    requires k <= |gs|
    decreases |gs| - k
  {
    if k == |gs| then Ok(None)
    else
      var id :- Resolve(txHash, k, gs[k]);
      var amounts := Matching(Slots(gs[k], side), o);
      if id == want && amounts != [] then Ok(Some(amounts[0]))
      else LookUp(txHash, gs, k + 1, side, o, want)
  }

  function FindGroup(txHash: Bytes, gs: seq<Group>, k: nat, want: AssetId): Result<Option<nat>, ErrorCode>
    requires k <= |gs|
    decreases |gs| - k
  {
    if k == |gs| then Ok(None)
    else
      var id :- Resolve(txHash, k, gs[k]);
      if id == want then Ok(Some(k)) else FindGroup(txHash, gs, k + 1, want)
  }

  // ---- against the list of entries ----

  lemma {:induction false} CountIsLength(txHash: Bytes, gs: seq<Group>, k: nat, side: Side, o: int)
    requires AllResolve(txHash, gs) && k <= |gs|
    ensures CountFrom(gs, k, side, o) == |Entries(txHash, gs, k, side, o)|
    decreases |gs| - k
  {
    if k < |gs| {
      CountIsLength(txHash, gs, k + 1, side, o);
    }
  }

  /** The t-th entry exists exactly below the count, and is the t-th of the list. */
  lemma {:induction false} EntryAtIsNth(txHash: Bytes, gs: seq<Group>, k: nat, side: Side, o: int, t: int)
    requires AllResolve(txHash, gs) && k <= |gs| && t >= 0
    ensures EntryAt(txHash, gs, k, side, o, t).Ok? <==> t < CountFrom(gs, k, side, o)
    ensures EntryAt(txHash, gs, k, side, o, t).Ok? ==>
              t < |Entries(txHash, gs, k, side, o)|
              && EntryAt(txHash, gs, k, side, o, t).value == Entries(txHash, gs, k, side, o)[t]
    decreases |gs| - k
  {
    assert k < |gs| ==> Resolve(txHash, k, gs[k]).Ok?;
    hide Matching, Resolve, AllResolve;
    CountIsLength(txHash, gs, k, side, o);
    if k < |gs| {
      var amounts := Matching(Slots(gs[k], side), o);
      if t >= |amounts| {
        EntryAtIsNth(txHash, gs, k + 1, side, o, t - |amounts|);
      }
    }
  }

  function FirstWith(es: seq<Entry>, want: AssetId): Option<nat> {
    if es == [] then None else if es[0].id == want then Some(es[0].amount) else FirstWith(es[1..], want)
  }

  lemma {:induction false} FirstWithSplit(es: seq<Entry>, fs: seq<Entry>, want: AssetId)
    ensures FirstWith(es + fs, want) == if FirstWith(es, want).Some? then FirstWith(es, want) else FirstWith(fs, want)
  {
    if es == [] {
      assert es + fs == fs;
    } else {
      FirstWithSplit(es[1..], fs, want);
      assert (es + fs)[1..] == es[1..] + fs;
    }
  }

  lemma {:induction false} FirstTagged(id: AssetId, amounts: seq<nat>, want: AssetId)
    ensures FirstWith(Tagged(id, amounts), want) == if id == want && amounts != [] then Some(amounts[0]) else None
  {
    if amounts != [] {
      FirstTagged(id, amounts[1..], want);
      assert Tagged(id, amounts)[1..] == Tagged(id, amounts[1..]);
    }
  }

  /** A lookup returns the first entry of the list with the asset's id. */
  lemma {:induction false} LookUpIsFirst(txHash: Bytes, gs: seq<Group>, k: nat, side: Side, o: int, want: AssetId)
    requires AllResolve(txHash, gs) && k <= |gs|
    ensures LookUp(txHash, gs, k, side, o, want) == Ok(FirstWith(Entries(txHash, gs, k, side, o), want))
    decreases |gs| - k
  {
    hide FirstWith, Matching;
    if k < |gs| {
      var id, amounts := Resolve(txHash, k, gs[k]).value, Matching(Slots(gs[k], side), o);
      LookUpIsFirst(txHash, gs, k + 1, side, o, want);
      FirstTagged(id, amounts, want);
      FirstWithSplit(Tagged(id, amounts), Entries(txHash, gs, k + 1, side, o), want);
    } else {
      NoFirst(want);
    }
  }

  lemma NoFirst(want: AssetId)
    ensures FirstWith([], want) == None
  {
  }

  /** Finding returns the first group with the id. */
  lemma {:induction false} FindGroupIsFirst(txHash: Bytes, gs: seq<Group>, k: nat, want: AssetId)
    requires AllResolve(txHash, gs) && k <= |gs|
    ensures FindGroup(txHash, gs, k, want).Ok?
    ensures match FindGroup(txHash, gs, k, want).value
            case None => forall i :: k <= i < |gs| ==> Resolve(txHash, i, gs[i]).value != want
            case Some(p) =>
              && k <= p < |gs| && Resolve(txHash, p, gs[p]).value == want
              && forall i :: k <= i < p ==> Resolve(txHash, i, gs[i]).value != want
    decreases |gs| - k
  {
    if k < |gs| {
      FindGroupIsFirst(txHash, gs, k + 1, want);
    }
  }

  /** The id of a fresh issuance finds the issuance's own position. */
  lemma FreshIsFound(txHash: Bytes, gs: seq<Group>, p: nat)
    requires AllResolve(txHash, gs) && p < |gs| && gs[p].assetId.None?
    ensures FindGroup(txHash, gs, 0, AssetId(txHash, p)) == Ok(Some(p))
  {
    assert Resolve(txHash, p, gs[p]).Ok?;
    FindGroupIsFirst(txHash, gs, 0, AssetId(txHash, p));
    var found := FindGroup(txHash, gs, 0, AssetId(txHash, p)).value;
    if found.Some? {
      FreshIsUnique(txHash, gs, p, found.value);
    }
  }

  // ---- the opcodes ----

  /** popAssetID. */
  function PopId(s: Items): Result<(Items, AssetId), ErrorCode> {
    var (s1, gidx) :- SVM.PopScriptNum(s);
    var (s2, txid) :- Pop(s1);
    if |txid| != TXID_BYTES then Err(InvalidStackOperation)
    else if gidx < 0 || gidx > MAX_GROUP_INDEX then Err(InvalidStackOperation)
    else Ok((s2, AssetId(txid, gidx)))
  }

  method PopAssetID(dstack: Stack) returns (r: Result<AssetId, ErrorCode>)
    modifies dstack
    ensures match PopId(old(dstack.stk))
            case Ok((s, id)) => r == Ok(id) && dstack.stk == s
            case Err(e) => r == Err(e)
  {
    var gidx := dstack.PopInt();
    if gidx.Err? {
      return Err(gidx.error);
    }
    var txid := dstack.PopByteArray();
    if txid.Err? {
      return Err(txid.error);
    }
    if |txid.value| != TXID_BYTES {
      return Err(InvalidStackOperation);
    }
    if gidx.value < 0 || gidx.value > MAX_GROUP_INDEX {
      return Err(InvalidStackOperation);
    }
    return Ok(AssetId(txid.value, gidx.value));
  }

  function CountMeaning(gs: Option<seq<Group>>, side: Side, s: Items): StackResult {
    if gs.None? then Err(InvalidStackOperation)
    else
      var (s1, o) :- SVM.PopScriptNum(s);
      Ok(s1 + [Encode(CountFrom(gs.value, 0, side, o))])
  }

  function AtMeaning(txHash: Bytes, gs: Option<seq<Group>>, side: Side, s: Items): StackResult {
    if gs.None? then Err(InvalidStackOperation)
    else
      var (s1, t) :- SVM.PopScriptNum(s);
      var (s2, o) :- SVM.PopScriptNum(s1);
      if t < 0 then Err(InvalidStackOperation)
      else
        var e :- EntryAt(txHash, gs.value, 0, side, o, t);
        SVM.PushNumber(s2 + [e.id.txid, Encode(e.id.index)], e.amount)
  }

  function LookUpMeaning(txHash: Bytes, gs: Option<seq<Group>>, side: Side, s: Items): StackResult {
    if gs.None? then Err(InvalidStackOperation)
    else
      var (s1, want) :- PopId(s);
      var (s2, o) :- SVM.PopScriptNum(s1);
      var found :- LookUp(txHash, gs.value, 0, side, o, want);
      var pushed :- SVM.PushNumber(s2, if found.Some? then found.value else 0);
      Ok(pushed + [Encode(SVM.BoolNum(found.Some?))])
  }

  function FindMeaning(txHash: Bytes, gs: Option<seq<Group>>, s: Items): StackResult {
    if gs.None? then Err(InvalidStackOperation)
    else
      var (s1, want) :- PopId(s);
      var found :- FindGroup(txHash, gs.value, 0, want);
      match found
      case Some(k) => Ok(s1 + [Encode(k), Encode(1)])
      case None => Ok(s1 + [Encode(0), Encode(0)])
  }

  function TotalSlots(gs: seq<Group>, k: nat, side: Side): nat
    requires k <= |gs|
    decreases |gs| - k
  {
    if k == |gs| then 0 else |Slots(gs[k], side)| + TotalSlots(gs, k + 1, side)
  }

  /** The packet fits the machine's integers. */
  predicate MachineSized(gs: Option<seq<Group>>, side: Side) {
    gs.Some? ==> |gs.value| <= 0x7fff_ffff && TotalSlots(gs.value, 0, side) <= 0x7fff_ffff
  }

  lemma {:induction false} MatchingBound(slots: seq<Slot>, o: int)
    ensures |Matching(slots, o)| <= |slots|
    decreases |slots|
  {
    if slots != [] {
      MatchingBound(slots[..|slots| - 1], o);
    }
  }

  lemma {:induction false} CountBound(gs: seq<Group>, k: nat, side: Side, o: int)
    requires k <= |gs|
    ensures CountFrom(gs, k, side, o) <= TotalSlots(gs, k, side)
    decreases |gs| - k
  {
    if k < |gs| {
      MatchingBound(Slots(gs[k], side), o);
      CountBound(gs, k + 1, side, o);
    }
  }

  /** OP_INSPECTINASSETCOUNT and OP_INSPECTOUTASSETCOUNT. */
  method CountOpcode(dstack: Stack, gs: Option<seq<Group>>, side: Side) returns (r: OpResult)
    requires MachineSized(gs, side)
    modifies dstack
    ensures Applied(r, dstack.stk, CountMeaning(gs, side, old(dstack.stk)))
  {
    hide Matching;
    if gs.None? {
      return Err(InvalidStackOperation);
    }
    var o := dstack.PopInt();
    if o.Err? {
      return Err(o.error);
    }
    ghost var all := CountFrom(gs.value, 0, side, o.value);
    CountBound(gs.value, 0, side, o.value);
    ghost var base := dstack.stk;
    var count := 0;
    for k := 0 to |gs.value|
      invariant count + CountFrom(gs.value, k, side, o.value) == all
      invariant dstack.stk == base
    {
      var slots := Slots(gs.value[k], side);
      ghost var before := count;
      NothingMatches(o.value);
      for j := 0 to |slots|
        invariant count == before + |Matching(slots[..j], o.value)| && dstack.stk == base
      {
        MatchingNext(slots, o.value, j);
        if slots[j].at == o.value {
          count := count + 1;
        }
      }
      assert slots[..|slots|] == slots;
    }
    dstack.PushInt(count);
    return Ok(());
  }

  lemma NothingMatches(o: int)
    ensures Matching([], o) == []
  {
  }

  /** OP_INSPECTINASSETAT and OP_INSPECTOUTASSETAT. */
  method AtOpcode(dstack: Stack, txHash: Bytes, gs: Option<seq<Group>>, side: Side) returns (r: OpResult)
    requires gs.Some? ==> forall g :: g in gs.value && g.assetId.Some? ==> g.assetId.value.index <= MAX_GROUP_INDEX
    modifies dstack
    ensures Applied(r, dstack.stk, AtMeaning(txHash, gs, side, old(dstack.stk)))
  {
    hide Encode, ReadScriptNum;
    if gs.None? {
      return Err(InvalidStackOperation);
    }
    var t := dstack.PopInt();
    if t.Err? {
      return Err(t.error);
    }
    var o := dstack.PopInt();
    if o.Err? {
      return Err(o.error);
    }
    if t.value < 0 {
      return Err(InvalidStackOperation);
    }
    ghost var base := dstack.stk;
    var found := SearchAt(txHash, gs.value, side, o.value, t.value);
    if found.Err? {
      return Err(found.error);
    }
    dstack.PushByteArray(found.value.id.txid);
    dstack.PushInt(found.value.id.index);
    assert dstack.stk == base + [found.value.id.txid, Encode(found.value.id.index)];
    r := dstack.PushBigNum(FromUint64(found.value.amount));
  }

  /** The nested loops over groups and their slots. */
  method SearchAt(txHash: Bytes, gs: seq<Group>, side: Side, o: int, t: int) returns (r: Result<Entry, ErrorCode>)
    requires t >= 0
    requires forall g :: g in gs && g.assetId.Some? ==> g.assetId.value.index <= MAX_GROUP_INDEX
    ensures r == EntryAt(txHash, gs, 0, side, o, t)
    ensures r.Ok? ==> r.value.id.index <= MAX_GROUP_INDEX
  {
    hide Matching;
    var idx := 0;
    for k := 0 to |gs|
      invariant 0 <= idx <= t
      invariant EntryAt(txHash, gs, 0, side, o, t) == EntryAt(txHash, gs, k, side, o, t - idx)
    {
      var id := Resolve(txHash, k, gs[k]);
      if id.Err? {
        return Err(id.error);
      }
      assert gs[k] in gs;
      var slots := Slots(gs[k], side);
      ghost var before := idx;
      NothingMatches(o);
      for j := 0 to |slots|
        invariant before <= idx <= t && idx == before + |Matching(slots[..j], o)|
      {
        MatchingNext(slots, o, j);
        if slots[j].at == o {
          if idx == t {
            return Ok(Entry(id.value, slots[j].amount));
          }
          idx := idx + 1;
        }
      }
      assert slots[..|slots|] == slots;
    }
    return Err(InvalidStackOperation);
  }

  /** OP_INSPECTINASSETLOOKUP and OP_INSPECTOUTASSETLOOKUP. */
  method LookUpOpcode(dstack: Stack, txHash: Bytes, gs: Option<seq<Group>>, side: Side) returns (r: OpResult)
    modifies dstack
    ensures Applied(r, dstack.stk, LookUpMeaning(txHash, gs, side, old(dstack.stk)))
  {
    hide Encode, ReadScriptNum;
    if gs.None? {
      return Err(InvalidStackOperation);
    }
    var want := PopAssetID(dstack);
    if want.Err? {
      return Err(want.error);
    }
    var o := dstack.PopInt();
    if o.Err? {
      return Err(o.error);
    }
    var found := SearchFor(txHash, gs.value, side, o.value, want.value);
    if found.Err? {
      return Err(found.error);
    }
    if found.value.Some? {
      r := dstack.PushBigNum(FromUint64(found.value.value));
      if r.Err? {
        return;
      }
      dstack.PushInt(1);
      return Ok(());
    }
    r := dstack.PushBigNum(FromUint64(0));
    if r.Err? {
      return;
    }
    dstack.PushInt(0);
    return Ok(());
  }

  method SearchFor(txHash: Bytes, gs: seq<Group>, side: Side, o: int, want: AssetId)
    returns (r: Result<Option<nat>, ErrorCode>)
    ensures r == LookUp(txHash, gs, 0, side, o, want)
  {
    hide Matching;
    for k := 0 to |gs|
      invariant LookUp(txHash, gs, 0, side, o, want) == LookUp(txHash, gs, k, side, o, want)
    {
      var id := Resolve(txHash, k, gs[k]);
      if id.Err? {
        return Err(id.error);
      }
      if id.value == want {
        var slots := Slots(gs[k], side);
        NothingMatches(o);
        for j := 0 to |slots|
          invariant Matching(slots[..j], o) == []
        {
          MatchingNext(slots, o, j);
          if slots[j].at == o {
            return Ok(Some(slots[j].amount));
          }
        }
        assert slots[..|slots|] == slots;
      }
    }
    return Ok(None);
  }

  /** OP_FINDASSETGROUPBYASSETID. */
  method FindOpcode(dstack: Stack, txHash: Bytes, gs: Option<seq<Group>>) returns (r: OpResult)
    requires gs.Some? ==> |gs.value| <= 0x7fff_ffff
    modifies dstack
    ensures Applied(r, dstack.stk, FindMeaning(txHash, gs, old(dstack.stk)))
  {
    hide Encode, ReadScriptNum;
    if gs.None? {
      return Err(InvalidStackOperation);
    }
    var want := PopAssetID(dstack);
    if want.Err? {
      return Err(want.error);
    }
    ghost var base := dstack.stk;
    for k := 0 to |gs.value|
      invariant dstack.stk == base
      invariant FindGroup(txHash, gs.value, 0, want.value) == FindGroup(txHash, gs.value, k, want.value)
    {
      var id := Resolve(txHash, k, gs.value[k]);
      if id.Err? {
        return Err(id.error);
      }
      if id.value == want.value {
        dstack.PushInt(k);
        dstack.PushInt(1);
        return Ok(());
      }
    }
    dstack.PushInt(0);
    dstack.PushInt(0);
    return Ok(());
  }
}
