/** The VM's data stack. The class follows the source's loops over one slice;
    the functions say what each operation does to the whole sequence. */
module Stacks {
  import opened Common
  import opened Int64
  import opened Numbers
  import opened ScriptErrors
  import opened BigNums
  import opened NumberCodec

  // ---- what the operations mean ----

  type Items = seq<Bytes>

  type StackResult = Result<Items, ErrorCode>

  /** The top k items, and what lies below them. */
  function Top(s: Items, k: nat): Items
    requires k <= |s|
  {
    s[|s| - k..]
  }

  function Below(s: Items, k: nat): Items
    requires k <= |s|
  {
    s[..|s| - k]
  }

  /** s without the item idx places below the top. */
  function Nipped(s: Items, idx: nat): Items
    requires idx < |s|
  {
    Below(s, idx + 1) + Top(s, idx)
  }

  function Item(s: Items, idx: nat): Bytes
    requires idx < |s|
  {
    s[|s| - 1 - idx]
  }

  function Pop(s: Items): Result<(Items, Bytes), ErrorCode> {
    if s == [] then Err(InvalidStackOperation) else Ok((s[..|s| - 1], s[|s| - 1]))
  }

  function Dropped(s: Items, n: int): StackResult {
    if n < 1 || n > |s| then Err(InvalidStackOperation) else Ok(Below(s, n))
  }

  function Dupped(s: Items, n: int): StackResult {
    if n < 1 || n > |s| then Err(InvalidStackOperation) else Ok(s + Top(s, n))
  }

  function Overed(s: Items, n: int): StackResult {
    if n < 1 || 2 * n > |s| then Err(InvalidStackOperation)
    else Ok(s + Below(s, n)[|s| - 2 * n..])
  }

  function Swapped(s: Items, n: int): StackResult {
    if n < 1 || 2 * n > |s| then Err(InvalidStackOperation)
    else Ok(Below(s, 2 * n) + Top(s, n) + Below(s, n)[|s| - 2 * n..])
  }

  function Rotated(s: Items, n: int): StackResult {
    if n < 1 || 3 * n > |s| then Err(InvalidStackOperation)
    else Ok(Below(s, 3 * n) + Top(s, 2 * n) + Below(s, 2 * n)[|s| - 3 * n..])
  }

  function Picked(s: Items, n: int): StackResult {
    if 0 <= n < |s| then Ok(s + [Item(s, n)]) else Err(InvalidStackOperation)
  }

  function Rolled(s: Items, n: int): StackResult {
    if 0 <= n < |s| then Ok(Nipped(s, n) + [Item(s, n)]) else Err(InvalidStackOperation)
  }

  function Tucked(s: Items): StackResult {
    if |s| < 2 then Err(InvalidStackOperation)
    else Ok(Below(s, 2) + [Item(s, 0), Item(s, 1), Item(s, 0)])
  }

  // ---- laws of the specifications ----

  /** Three rotations of 3n items put every item back. */
  lemma RotateThrice(s: Items, n: nat)
    requires 0 < n && 3 * n <= |s|
    ensures Rotated(s, n).Ok? && Rotated(Rotated(s, n).value, n).Ok?
    ensures Rotated(Rotated(Rotated(s, n).value, n).value, n) == Ok(s)
  {
    var base, x, y, z := Below(s, 3 * n), s[|s| - 3 * n..|s| - 2 * n], s[|s| - 2 * n..|s| - n], Top(s, n);
    assert s == base + x + y + z;
    RotateParts(s, base, x, y, z);
    var s1 := base + y + z + x;
    RotateParts(s1, base, y, z, x);
    var s2 := base + z + x + y;
    RotateParts(s2, base, z, x, y);
  }

  lemma RotateParts(s: Items, base: Items, x: Items, y: Items, z: Items)
    requires |x| == |y| == |z| > 0 && s == base + x + y + z
    ensures Rotated(s, |x|) == Ok(base + y + z + x)
  {
    var n := |x|;
    assert Below(s, 3 * n) == base;
    assert Top(s, 2 * n) == y + z;
    assert Below(s, 2 * n)[|s| - 3 * n..] == x;
    assert base + (y + z) + x == base + y + z + x;
  }

  /** Swapping twice is the identity. */
  lemma SwapTwice(s: Items, n: nat)
    requires 0 < n && 2 * n <= |s|
    ensures Swapped(s, n).Ok? && Swapped(Swapped(s, n).value, n) == Ok(s)
  {
    var base, x, y := Below(s, 2 * n), s[|s| - 2 * n..|s| - n], Top(s, n);
    assert s == base + x + y;
    SwapParts(s, base, x, y);
    SwapParts(base + y + x, base, y, x);
  }

  lemma SwapParts(s: Items, base: Items, x: Items, y: Items)
    requires |x| == |y| > 0 && s == base + x + y
    ensures Swapped(s, |x|) == Ok(base + y + x)
  {
    var n := |x|;
    assert Below(s, 2 * n) == base && Top(s, n) == y;
    assert Below(s, n)[|s| - 2 * n..] == x;
  }

  /** Dropping what a duplication added gives the stack back. */
  lemma DropUndoesDup(s: Items, n: nat)
    requires 0 < n <= |s|
    ensures Dupped(s, n).Ok? && Dropped(Dupped(s, n).value, n) == Ok(s)
  {
    assert Below(s + Top(s, n), n) == s;
  }

  /** One roll of the deepest of three is one rotation; of two, one swap. */
  lemma RollIsRotation(s: Items)
    ensures |s| >= 3 ==> Rolled(s, 2) == Rotated(s, 1)
    ensures |s| >= 2 ==> Rolled(s, 1) == Swapped(s, 1)
  {
    if |s| >= 2 {
      assert Rolled(s, 1).value == Swapped(s, 1).value;
    }
    if |s| >= 3 {
      assert Rolled(s, 2).value == Rotated(s, 1).value;
    }
  }

  /** Moving the item `entry` places down to the top, `times` times over, rotates
      the top entry + 1 items. */
  function RolledTimes(s: Items, entry: nat, times: nat): Items
    requires entry < |s| && times <= entry + 1
  {
    Below(s, entry + 1) + Top(s, entry + 1)[times..] + Top(s, entry + 1)[..times]
  }

  lemma RollStep(s: Items, entry: nat, times: nat)
    requires entry < |s| && times <= entry
    ensures var r := RolledTimes(s, entry, times);
            |r| == |s| && Nipped(r, entry) + [Item(r, entry)] == RolledTimes(s, entry, times + 1)
  {
    var b, t := Below(s, entry + 1), Top(s, entry + 1);
    var r := RolledTimes(s, entry, times);
    assert r == b + t[times..] + t[..times];
    assert Below(r, entry + 1) == b;
    assert Item(r, entry) == t[times];
    assert Top(r, entry) == t[times + 1..] + t[..times];
    assert t[..times + 1] == t[..times] + [t[times]];
  }

  /** Rolling the same depth several times in a row. */
  function Rolling(s: Items, n: int, times: nat): StackResult {
    if times == 0 then Ok(s)
    else
      var r :- Rolling(s, n, times - 1);
      Rolled(r, n)
  }

  lemma {:induction false} RollingIs(s: Items, entry: nat, times: nat)
    requires entry < |s| && times <= entry + 1
    ensures Rolling(s, entry, times) == Ok(RolledTimes(s, entry, times))
    decreases times
  {
    if times == 0 {
      assert RolledTimes(s, entry, 0) == s;
    } else {
      RollingIs(s, entry, times - 1);
      RollStep(s, entry, times - 1);
    }
  }

  /** Rolling an item from some depth as often as there are items down to it puts
      every item back, and any smaller number of times rotates them. */
  lemma RollsRestore(s: Items, entry: nat, times: nat)
    requires entry < |s| && times <= entry + 1
    ensures Rolling(s, entry, times) == Ok(RolledTimes(s, entry, times))
    ensures Rolling(s, entry, entry + 1) == Ok(s)
  {
    RollingIs(s, entry, times);
    RollingIs(s, entry, entry + 1);
    assert RolledTimes(s, entry, entry + 1) == s;
  }

  // ---- the class ----

  /** Lengths in memory fit the machine's integers. */
  ghost predicate Representable(s: Items) {
    |s| <= MAX && forall x :: x in s ==> |x| <= MAX
  }

  const MAX_INT32: int := 0x7fff_ffff

  class Stack {
    var stk: Items

    constructor ()
      ensures stk == []
    {
      stk := [];
    }

    method PushByteArray(so: Bytes)
      modifies this
      ensures stk == old(stk) + [so]
    {
      stk := stk + [so];
    }

    method PushInt(val: int64)
      requires val != MIN
      modifies this
      ensures stk == old(stk) + [Encode(val)]
    {
      var b := ScriptNumBytes(val);
      PushByteArray(b);
    }

    method PushBool(val: bool)
      modifies this
      ensures stk == old(stk) + [if val then [1] else []]
    {
      PushByteArray(if val then [1] else []);
    }

    /** Removes the item idx places below the top and returns it. */
    method NipN(idx: int) returns (r: Result<Bytes, ErrorCode>)
      modifies this
      ensures r.Ok? <==> 0 <= idx < |old(stk)|
      ensures r.Ok? ==> r.value == Item(old(stk), idx) && stk == Nipped(old(stk), idx)
      ensures r.Err? ==> r.error == InvalidStackOperation && stk == old(stk)
    {
      var sz := |stk|;
      if idx < 0 || idx > sz - 1 {
        return Err(InvalidStackOperation);
      }
      var so := stk[sz - idx - 1];
      if idx == 0 {
        stk := stk[..sz - 1];
      } else if idx == sz - 1 {
        stk := stk[1..];
      } else {
        var s1 := stk[sz - idx..sz];
        stk := stk[..sz - idx - 1];
        stk := stk + s1;
      }
      return Ok(so);
    }

    method PopByteArray() returns (r: Result<Bytes, ErrorCode>)
      modifies this
      ensures Pop(old(stk)).Ok? ==> r == Ok(Pop(old(stk)).value.1) && stk == Pop(old(stk)).value.0
      ensures Pop(old(stk)).Err? ==> r == Err(InvalidStackOperation) && stk == old(stk)
    {
      r := NipN(0);
    }

    method PopInt() returns (r: Result<int64, ErrorCode>)
      modifies this
      ensures Pop(old(stk)).Err? ==> r == Err(InvalidStackOperation) && stk == old(stk)
      ensures Pop(old(stk)).Ok? ==>
                stk == Pop(old(stk)).value.0 && r == ReadScriptNum(Pop(old(stk)).value.1)
    {
      var so := PopByteArray();
      if so.Err? {
        return Err(so.error);
      }
      r := MakeScriptNum(so.value, true, MAX_SCRIPT_NUM_LEN);
    }

    method PopBool() returns (r: Result<bool, ErrorCode>)
      modifies this
      ensures Pop(old(stk)).Err? ==> r == Err(InvalidStackOperation) && stk == old(stk)
      ensures Pop(old(stk)).Ok? ==>
                stk == Pop(old(stk)).value.0 && r == Ok(Truthy(Pop(old(stk)).value.1))
    {
      var so := PopByteArray();
      if so.Err? {
        return Err(so.error);
      }
      var b := AsBool(so.value);
      return Ok(b);
    }

    method PeekByteArray(idx: int) returns (r: Result<Bytes, ErrorCode>)
      ensures r == if 0 <= idx < |stk| then Ok(Item(stk, idx)) else Err(InvalidStackOperation)
    {
      var sz := |stk|;
      if idx < 0 || idx >= sz {
        return Err(InvalidStackOperation);
      }
      return Ok(stk[sz - idx - 1]);
    }

    method PushBigNum(n: BigNum) returns (r: Result<(), ErrorCode>)
      modifies this
      ensures PushedNumber(n.Value()).Ok? ==>
                r == Ok(()) && stk == old(stk) + [PushedNumber(n.Value()).value]
      ensures PushedNumber(n.Value()).Err? ==>
                r == Err(NumberTooBig) && stk == old(stk)
    {
      var b := NumBytes(n);
      if b.Err? {
        return Err(b.error);
      }
      PushByteArray(b.value);
      return Ok(());
    }

    method PopBigNum() returns (r: Result<BigNum, ErrorCode>)
      modifies this
      ensures Pop(old(stk)).Err? ==> r == Err(InvalidStackOperation) && stk == old(stk)
      ensures Pop(old(stk)).Ok? ==> stk == Pop(old(stk)).value.0
      ensures Pop(old(stk)).Ok? ==>
                var n := ReadNumber(Pop(old(stk)).value.1);
                if n.Ok? then r.Ok? && r.value.Value() == n.value else r == Err(n.error)
    {
      var so := PopByteArray();
      if so.Err? {
        return Err(so.error);
      }
      r := BigNumFromBytes(so.value);
    }

    method Tuck() returns (r: Result<(), ErrorCode>)
      modifies this
      ensures r.Ok? <==> Tucked(old(stk)).Ok?
      ensures r.Ok? ==> stk == Tucked(old(stk)).value
      ensures r.Err? ==> r.error == InvalidStackOperation
    {
      var so2 := PopByteArray();
      if so2.Err? {
        return Err(so2.error);
      }
      var so1 := PopByteArray();
      if so1.Err? {
        return Err(so1.error);
      }
      PushByteArray(so2.value);
      PushByteArray(so1.value);
      PushByteArray(so2.value);
      return Ok(());
    }

    method DropN(n0: int) returns (r: Result<(), ErrorCode>)
      modifies this
      ensures r.Ok? <==> Dropped(old(stk), n0).Ok?
      ensures r.Ok? ==> stk == Dropped(old(stk), n0).value
      ensures r.Err? ==> r.error == InvalidStackOperation
    {
      if n0 < 1 {
        return Err(InvalidStackOperation);
      }
      var n := n0;
      while n > 0
        invariant 0 <= n <= n0 && n0 - n <= |old(stk)|
        invariant stk == Below(old(stk), n0 - n)
      {
        var so := PopByteArray();
        if so.Err? {
          return Err(so.error);
        }
        n := n - 1;
      }
      return Ok(());
    }

    method DupN(n: int) returns (r: Result<(), ErrorCode>)
      modifies this
      ensures r.Ok? <==> Dupped(old(stk), n).Ok?
      ensures r.Ok? ==> stk == Dupped(old(stk), n).value
      ensures r.Err? ==> r.error == InvalidStackOperation
    {
      if n < 1 {
        return Err(InvalidStackOperation);
      }
      var i := n;
      while i > 0
        invariant 0 <= i <= n
        invariant i < n ==> n <= |old(stk)|
        invariant stk == if i == n then old(stk) else old(stk) + Top(old(stk), n)[..n - i]
      {
        var so := PeekByteArray(n - 1);
        if so.Err? {
          return Err(so.error);
        }
        PushByteArray(so.value);
        i := i - 1;
      }
      return Ok(());
    }

    method OverN(n0: int) returns (r: Result<(), ErrorCode>)
      requires 2 * n0 - 1 <= MAX_INT32
      modifies this
      ensures r.Ok? <==> Overed(old(stk), n0).Ok?
      ensures r.Ok? ==> stk == Overed(old(stk), n0).value
      ensures r.Err? ==> r.error == InvalidStackOperation
    {
      if n0 < 1 {
        return Err(InvalidStackOperation);
      }
      var entry := 2 * n0 - 1;
      var n := n0;
      while n > 0
        invariant 0 <= n <= n0
        invariant n < n0 ==> 2 * n0 <= |old(stk)|
        invariant stk == if n == n0 then old(stk)
                         else old(stk) + Below(old(stk), n0)[|old(stk)| - 2 * n0..][..n0 - n]
      {
        var so := PeekByteArray(entry);
        if so.Err? {
          return Err(so.error);
        }
        PushByteArray(so.value);
        n := n - 1;
      }
      return Ok(());
    }

    /** The nip-and-push loop shared by RotN and SwapN. */
    method RollLoop(entry: int, n: int) returns (r: Result<(), ErrorCode>)
      requires 1 <= n <= entry + 1
      modifies this
      ensures r.Ok? <==> entry < |old(stk)|
      ensures r.Ok? ==> stk == RolledTimes(old(stk), entry, n)
      ensures r.Err? ==> r.error == InvalidStackOperation
    {
      var i := n;
      while i > 0
        invariant 0 <= i <= n
        invariant i < n ==> entry < |old(stk)|
        invariant if entry < |old(stk)| then stk == RolledTimes(old(stk), entry, n - i) else stk == old(stk)
      {
        if entry < |old(stk)| {
          RollStep(old(stk), entry, n - i);
        }
        var so := NipN(entry);
        if so.Err? {
          return Err(so.error);
        }
        PushByteArray(so.value);
        i := i - 1;
      }
      return Ok(());
    }

    method RotN(n: int) returns (r: Result<(), ErrorCode>)
      requires 3 * n - 1 <= MAX_INT32
      modifies this
      ensures r.Ok? <==> Rotated(old(stk), n).Ok?
      ensures r.Ok? ==> stk == Rotated(old(stk), n).value
      ensures r.Err? ==> r.error == InvalidStackOperation
    {
      if n < 1 {
        return Err(InvalidStackOperation);
      }
      r := RollLoop(3 * n - 1, n);
    }

    method SwapN(n: int) returns (r: Result<(), ErrorCode>)
      requires 2 * n - 1 <= MAX_INT32
      modifies this
      ensures r.Ok? <==> Swapped(old(stk), n).Ok?
      ensures r.Ok? ==> stk == Swapped(old(stk), n).value
      ensures r.Err? ==> r.error == InvalidStackOperation
    {
      if n < 1 {
        return Err(InvalidStackOperation);
      }
      r := RollLoop(2 * n - 1, n);
    }

    method PickN(n: int) returns (r: Result<(), ErrorCode>)
      modifies this
      ensures r.Ok? <==> Picked(old(stk), n).Ok?
      ensures r.Ok? ==> stk == Picked(old(stk), n).value
      ensures r.Err? ==> r.error == InvalidStackOperation
    {
      var so := PeekByteArray(n);
      if so.Err? {
        return Err(so.error);
      }
      PushByteArray(so.value);
      return Ok(());
    }

    method RollN(n: int) returns (r: Result<(), ErrorCode>)
      modifies this
      ensures r.Ok? <==> Rolled(old(stk), n).Ok?
      ensures r.Ok? ==> stk == Rolled(old(stk), n).value
      ensures r.Err? ==> r.error == InvalidStackOperation
    {
      var so := NipN(n);
      if so.Err? {
        return Err(so.error);
      }
      PushByteArray(so.value);
      return Ok(());
    }
  }
}
