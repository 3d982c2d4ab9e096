/** What the asset opcodes leave on the stack, over the asset packet's groups. */
module AssetLaws {
  import opened Common
  import opened ScriptErrors
  import opened Numbers
  import opened NumberCodec
  import opened Stacks
  import opened NumberLaws
  import opened Assets
  import SVM = ScriptVM

  // ---- identities and order ----

  /** A group's identity: its explicit id, which must not name this transaction, or
      this transaction and its own position. */
  lemma IdentityMeans(txHash: Bytes, k: nat, g: Group)
    ensures g.assetId.Some? ==>
              Resolve(txHash, k, g) ==
              if g.assetId.value.txid == txHash then Err(InvalidStackOperation) else Ok(g.assetId.value)
    ensures g.assetId.None? ==>
              Resolve(txHash, k, g) == if k > 65535 then Err(InvalidStackOperation) else Ok(AssetId(txHash, k))
  {
  }

  predicate Increasing(ps: seq<nat>) {
    forall i, j :: 0 <= i < j < |ps| ==> ps[i] < ps[j]
  }

  /** The matching amounts are those of the slots at the index, each once, in the
      order of the slots. */
  lemma {:induction false} MatchingSlots(slots: seq<Slot>, o: int) returns (ps: seq<nat>)
    ensures |ps| == |Matching(slots, o)| && Increasing(ps)
    ensures forall i :: 0 <= i < |ps| ==>
              ps[i] < |slots| && slots[ps[i]].at == o && slots[ps[i]].amount == Matching(slots, o)[i]
    ensures forall j :: 0 <= j < |slots| && slots[j].at == o ==> j in ps
    decreases |slots|
  {
    ps := [];
    if slots != [] {
      var n := |slots| - 1;
      var before := MatchingSlots(slots[..n], o);
      assert forall j :: 0 <= j < n ==> slots[..n][j] == slots[j];
      assert Last(slots) == slots[n];
      var old' := Matching(slots[..n], o);
      assert Matching(slots, o) == old' + if slots[n].at == o then [slots[n].amount] else [];
      hide Matching;
      if slots[n].at == o {
        ps := before + [n];
        assert n in ps;
        forall j | 0 <= j < |slots| && slots[j].at == o
          ensures j in ps
        {
          if j < n {
            assert slots[..n][j].at == o;
            assert j in before;
          }
        }
      } else {
        ps := before;
      }
    }
  }

  /** Inputs and outputs are the slots of the two sides. */
  lemma SidesAre(g: Group)
    ensures Slots(g, In) == g.inputs && Slots(g, Out) == g.outputs
  {
  }

  // ---- the opcodes ----

  /** COUNT leaves the number of entries at an input or output. */
  lemma Counting(txHash: Bytes, gs: seq<Group>, side: Side, s: Items, o: int)
    requires AllResolve(txHash, gs) && ShortNumber(o)
    ensures CountMeaning(Some(gs), side, s + [Encode(o)]) == Ok(s + [Encode(|Entries(txHash, gs, 0, side, o)|)])
  {
    hide Encode, ShortNumber, ReadScriptNum, AllResolve, Entries;
    CountIsLength(txHash, gs, 0, side, o);
    ReadsBack(o);
    PopLast(s, Encode(o));
  }

  /** AT leaves transaction, group and amount of the entry at a position; a position
      that is negative or past the last entry is refused. */
  lemma Indexing(txHash: Bytes, gs: seq<Group>, side: Side, s: Items, o: int, t: int)
    requires AllResolve(txHash, gs) && ShortNumber(o) && ShortNumber(t)
    ensures var es, r := Entries(txHash, gs, 0, side, o), AtMeaning(txHash, Some(gs), side, s + [Encode(o), Encode(t)]);
            if t < 0 || t >= |es| then r == Err(InvalidStackOperation)
            else if !Fits(es[t].amount) then r == Err(NumberTooBig)
            else r == Ok(s + [es[t].id.txid, Encode(es[t].id.index), Encode(es[t].amount)])
  {
    hide Encode, ShortNumber, ReadScriptNum, AllResolve, Entries, EntryAt, CountFrom;
    ReadsBack(o);
    ReadsBack(t);
    PopTwo(s, Encode(o), Encode(t));
    PopLast(s, Encode(o));
    if t >= 0 {
      EntryAtIsNth(txHash, gs, 0, side, o, t);
      CountIsLength(txHash, gs, 0, side, o);
      if EntryAt(txHash, gs, 0, side, o, t).Err? {
        EntryError(txHash, gs, 0, side, o, t);
      } else {
        var e := EntryAt(txHash, gs, 0, side, o, t).value;
        assert s + [e.id.txid, Encode(e.id.index)] + [Encode(e.amount)]
               == s + [e.id.txid, Encode(e.id.index), Encode(e.amount)];
      }
    }
  }

  lemma {:induction false} EntryError(txHash: Bytes, gs: seq<Group>, k: nat, side: Side, o: int, t: int)
    requires k <= |gs| && t >= 0 && EntryAt(txHash, gs, k, side, o, t).Err?
    ensures EntryAt(txHash, gs, k, side, o, t) == Err(InvalidStackOperation)
    decreases |gs| - k
  {
    hide Matching;
    if k < |gs| && Resolve(txHash, k, gs[k]).Ok? {
      var amounts := Matching(Slots(gs[k], side), o);
      if t >= |amounts| {
        EntryError(txHash, gs, k + 1, side, o, t - |amounts|);
      }
    }
  }

  /** An asset on the stack: transaction of 32 bytes, then group. */
  predicate AssetOperands(txid: Bytes, index: int) {
    |txid| == 32 && 0 <= index <= 65535 && ShortNumber(index)
  }

  lemma AssetPopped(s: Items, txid: Bytes, index: int)
    requires ShortNumber(index)
    ensures PopId(s + [txid, Encode(index)]) ==
            if AssetOperands(txid, index) then Ok((s, AssetId(txid, index))) else Err(InvalidStackOperation)
  {
    hide Encode, ReadScriptNum;
    ReadsBack(index);
    PopTwo(s, txid, Encode(index));
    PopLast(s, txid);
  }

  /** LOOKUP leaves the amount of the first entry of an asset and a one, or two
      zeros when there is none. */
  lemma LookingUp(txHash: Bytes, gs: seq<Group>, side: Side, s: Items, o: int, txid: Bytes, index: int, p: nat)
    requires AllResolve(txHash, gs) && ShortNumber(o) && AssetOperands(txid, index)
    ensures var es := Entries(txHash, gs, 0, side, o);
            var r := LookUpMeaning(txHash, Some(gs), side, s + [Encode(o), txid, Encode(index)]);
            && ((forall i :: 0 <= i < |es| ==> es[i].id != AssetId(txid, index)) ==> r == Ok(s + [[], []]))
            && (p < |es| && es[p].id == AssetId(txid, index) && Fits(es[p].amount)
                && (forall i :: 0 <= i < p ==> es[i].id != AssetId(txid, index)) ==>
                  r == Ok(s + [Encode(es[p].amount), [1]]))
  {
    hide Encode, ShortNumber, AllResolve, Entries, LookUp, FirstWith, LookUpMeaning, Fits;
    var es, want := Entries(txHash, gs, 0, side, o), AssetId(txid, index);
    LookUpIsFirst(txHash, gs, 0, side, o, want);
    FirstIs(es, want, p);
    LookUpRuns(txHash, gs, side, s, o, txid, index);
  }

  lemma LookUpRuns(txHash: Bytes, gs: seq<Group>, side: Side, s: Items, o: int, txid: Bytes, index: int)
    requires ShortNumber(o) && AssetOperands(txid, index)
    ensures var r := LookUpMeaning(txHash, Some(gs), side, s + [Encode(o), txid, Encode(index)]);
            var found := LookUp(txHash, gs, 0, side, o, AssetId(txid, index));
            && (found.Ok? && found.value.None? ==> r == Ok(s + [[], []]))
            && (found.Ok? && found.value.Some? && Fits(found.value.value) ==>
                  r == Ok(s + [Encode(found.value.value), [1]]))
  {
    hide Encode, ShortNumber, ReadScriptNum, LookUp, PopId;
    ReadsBack(o);
    assert s + [Encode(o), txid, Encode(index)] == s + [Encode(o)] + [txid, Encode(index)];
    OperandsShort(txid, index);
    AssetPopped(s + [Encode(o)], txid, index);
    PopLast(s, Encode(o));
    FlagFits(true);
    FlagFits(false);
    ZeroIsEmpty();
    hide Flag;
    assert s + [[]] + [[]] == s + [[], []];
    var found := LookUp(txHash, gs, 0, side, o, AssetId(txid, index));
    if found.Ok? && found.value.Some? {
      assert s + [Encode(found.value.value)] + [[1]] == s + [Encode(found.value.value), [1]];
    }
  }

  lemma OperandsShort(txid: Bytes, index: int)
    requires AssetOperands(txid, index)
    ensures ShortNumber(index)
  {
  }

  lemma ZeroIsEmpty()
    ensures Encode(0) == [] && Encode(1) == [1]
  {
    FlagFits(true);
  }

  lemma {:induction false} FirstIs(es: seq<Entry>, want: AssetId, p: nat)
    ensures (forall i :: 0 <= i < |es| ==> es[i].id != want) ==> FirstWith(es, want) == None
    ensures p < |es| && es[p].id == want && (forall i :: 0 <= i < p ==> es[i].id != want) ==>
              FirstWith(es, want) == Some(es[p].amount)
    decreases |es|
  {
    if es != [] {
      FirstIs(es[1..], want, if p > 0 then p - 1 else 0);
    }
  }

  /** FIND leaves the position of the first group of an asset and a one, or two
      zeros. */
  lemma Finding(txHash: Bytes, gs: seq<Group>, s: Items, txid: Bytes, index: int, p: nat)
    requires AllResolve(txHash, gs) && AssetOperands(txid, index)
    ensures var r := FindMeaning(txHash, Some(gs), s + [txid, Encode(index)]);
            && ((forall i :: 0 <= i < |gs| ==> Resolve(txHash, i, gs[i]) != Ok(AssetId(txid, index))) ==>
                  r == Ok(s + [[], []]))
            && (p < |gs| && Resolve(txHash, p, gs[p]) == Ok(AssetId(txid, index))
                && (forall i :: 0 <= i < p ==> Resolve(txHash, i, gs[i]) != Ok(AssetId(txid, index))) ==>
                  r == Ok(s + [Encode(p), [1]]))
  {
    var want := AssetId(txid, index);
    FindGroupIsFirst(txHash, gs, 0, want);
    AssetPopped(s, txid, index);
    FlagFits(true);
    DecodeEncode(0);
    hide Encode, FindGroup, PopId, Resolve;
    var found := FindGroup(txHash, gs, 0, want).value;
    if found.Some? {
      assert AllResolve(txHash, gs) ==> Resolve(txHash, found.value, gs[found.value]).Ok?;
    }
  }

  /** Without an asset packet every one of them fails. */
  lemma NoAssets(txHash: Bytes, side: Side, s: Items)
    ensures CountMeaning(None, side, s) == AtMeaning(txHash, None, side, s) == Err(InvalidStackOperation)
    ensures LookUpMeaning(txHash, None, side, s) == FindMeaning(txHash, None, s) == Err(InvalidStackOperation)
  {
  }
}
