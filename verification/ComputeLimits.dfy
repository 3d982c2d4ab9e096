/** Execution budgets: per-input tables reset with every input, and a request-wide
    table shared by all inputs of one request. */
module ComputeLimits {
  import opened Common
  import opened ScriptErrors
  import SVM = ScriptVM

  const MAX_INT: int := 0x7fff_ffff_ffff_ffff
  const REQUEST_INPUT_BUDGET: int := 4

  type Limits = map<byte, int>
  type Counts = map<byte, nat>

  function DefaultComputeLimits(): Limits {
    map[0xac := 50, 0xad := 50, 0xba := 50, 0xcc := 50,
        0xe0 := 1000, 0xe1 := 50, 0xe3 := 50, 0xe4 := 50, 0xe2 := 2, 0xda := 64]
  }

  /** Four inputs' worth of one limit, saturating instead of wrapping. */
  function Scaled(limit: int): int {
    if limit > MAX_INT / REQUEST_INPUT_BUDGET then MAX_INT else limit * REQUEST_INPUT_BUDGET
  }

  /** Exactly four times the limit, or the largest integer where that is larger. */
  lemma ScaledIs(limit: int)
    ensures 4 * limit <= 0x7fff_ffff_ffff_ffff ==> Scaled(limit) == 4 * limit
    ensures 4 * limit > 0x7fff_ffff_ffff_ffff ==> Scaled(limit) == 0x7fff_ffff_ffff_ffff
  {
  }

  method AggregateComputeLimits(c: Limits) returns (limits: Limits)
    ensures limits.Keys == c.Keys
    ensures forall op :: op in c ==> limits[op] == Scaled(c[op])
  {
    limits := c;
    var todo := c.Keys;
    while todo != {}
      invariant todo <= c.Keys == limits.Keys
      invariant forall op :: op in c ==> limits[op] == if op in todo then c[op] else Scaled(c[op])
    {
      var op :| op in todo;
      var limit := limits[op];
      if limit > MAX_INT / REQUEST_INPUT_BUDGET {
        limits := limits[op := MAX_INT];
      } else {
        limits := limits[op := limit * REQUEST_INPUT_BUDGET];
      }
      todo := todo - {op};
    }
  }

  class ComputeBudget {
    const limits: Limits
    var opCounts: Counts

    constructor (c: Limits)
      ensures limits == c && opCounts == map[]
    {
      limits := c;
      opCounts := map[];
    }

    /** Counts one execution; the count grows even when the limit refuses it. */
    method Charge(op: byte) returns (r: Result<(), ErrorCode>)
      modifies this
      ensures match SVM.ChargeTable(limits, old(opCounts), op)
              case Ok(counts) => r.Ok? && opCounts == counts
              case Err(e) => r == Err(e) && opCounts == old(opCounts)[op := SVM.CountOf(old(opCounts), op) + 1]
    {
      if op !in limits {
        return Ok(());
      }
      opCounts := opCounts[op := SVM.CountOf(opCounts, op) + 1];
      if opCounts[op] > limits[op] {
        return Err(ScriptTooBig);
      }
      return Ok(());
    }
  }

  // ---- sequences of charges ----

  function ChargeAll(limits: Limits, counts: Counts, ops: seq<byte>): Result<Counts, ErrorCode>
    decreases |ops|
  {
    if ops == [] then Ok(counts)
    else
      var next :- SVM.ChargeTable(limits, counts, ops[0]);
      ChargeAll(limits, next, ops[1..])
  }

  function Occurrences(op: byte, ops: seq<byte>): nat {
    if ops == [] then 0 else (if ops[0] == op then 1 else 0) + Occurrences(op, ops[1..])
  }

  /** A budget admits a run exactly when no limited opcode exceeds its limit. */
  ghost predicate Affordable(limits: Limits, counts: Counts, ops: seq<byte>) {
    forall op :: op in limits && Occurrences(op, ops) > 0 ==>
      SVM.CountOf(counts, op) + Occurrences(op, ops) <= limits[op]
  }

  lemma {:induction false} ChargeAllExact(limits: Limits, counts: Counts, ops: seq<byte>)
    ensures ChargeAll(limits, counts, ops).Ok? <==> Affordable(limits, counts, ops)
    ensures ChargeAll(limits, counts, ops).Ok? ==>
              forall op :: op in limits ==>
                SVM.CountOf(ChargeAll(limits, counts, ops).value, op)
                == SVM.CountOf(counts, op) + Occurrences(op, ops)
    decreases |ops|
  {
    if ops != [] {
      var charged := SVM.ChargeTable(limits, counts, ops[0]);
      assert Occurrences(ops[0], ops) == 1 + Occurrences(ops[0], ops[1..]);
      if charged.Ok? {
        var next := charged.value;
        ChargeAllExact(limits, next, ops[1..]);
        forall op | op in limits
          ensures SVM.CountOf(next, op) + Occurrences(op, ops[1..]) == SVM.CountOf(counts, op) + Occurrences(op, ops)
        {
        }
        if ops[0] in limits {
          assert Affordable(limits, counts, ops) ==> Affordable(limits, next, ops[1..]);
          assert SVM.CountOf(counts, ops[0]) + 1 <= limits[ops[0]];
          assert Affordable(limits, next, ops[1..]) ==> Affordable(limits, counts, ops);
        }
      }
    }
  }

  lemma {:induction false} OccurrencesAppend(op: byte, xs: seq<byte>, ys: seq<byte>)
    ensures Occurrences(op, xs + ys) == Occurrences(op, xs) + Occurrences(op, ys)
  {
    if xs == [] {
      assert xs + ys == ys;
    } else {
      OccurrencesAppend(op, xs[1..], ys);
      assert (xs + ys)[1..] == xs[1..] + ys;
    }
  }

  /** The charged opcodes of all inputs of a request, in order. */
  function Flatten(inputs: seq<seq<byte>>): seq<byte> {
    if inputs == [] then [] else inputs[0] + Flatten(inputs[1..])
  }

  lemma {:induction false} FlattenBound(op: byte, inputs: seq<seq<byte>>, limit: nat)
    requires forall i :: 0 <= i < |inputs| ==> Occurrences(op, inputs[i]) <= limit
    ensures Occurrences(op, Flatten(inputs)) <= |inputs| * limit
  {
    if inputs != [] {
      OccurrencesAppend(op, inputs[0], Flatten(inputs[1..]));
      FlattenBound(op, inputs[1..], limit);
      assert |inputs| * limit == limit + (|inputs| - 1) * limit;
    }
  }

  /** A request of up to four inputs is never refused by the shared budget when
      each input stays within its own limits and no limit saturates. */
  lemma SharedBudgetSuffices(limits: Limits, shared: Limits, inputs: seq<seq<byte>>)
    requires |inputs| <= REQUEST_INPUT_BUDGET
    requires shared.Keys == limits.Keys && forall op :: op in limits ==> shared[op] == Scaled(limits[op])
    requires forall op :: op in limits ==> limits[op] <= MAX_INT / REQUEST_INPUT_BUDGET
    requires forall i :: 0 <= i < |inputs| ==> ChargeAll(limits, map[], inputs[i]).Ok?
    ensures ChargeAll(shared, map[], Flatten(inputs)).Ok?
  {
    ChargeAllExact(shared, map[], Flatten(inputs));
    forall op | op in shared && Occurrences(op, Flatten(inputs)) > 0
      ensures Occurrences(op, Flatten(inputs)) <= shared[op]
    {
      forall i | 0 <= i < |inputs|
        ensures Occurrences(op, inputs[i]) <= if limits[op] < 0 then 0 else limits[op]
      {
        ChargeAllExact(limits, map[], inputs[i]);
      }
      var limit := if limits[op] < 0 then 0 else limits[op];
      FlattenBound(op, inputs, limit);
      assert |inputs| * limit <= REQUEST_INPUT_BUDGET * limit by {
        ProductOrder(|inputs|, REQUEST_INPUT_BUDGET, limit);
      }
    }
  }

  lemma ProductOrder(a: int, b: int, c: nat)
    requires a <= b
    ensures a * c <= b * c
  {
    Distribute(a, b - a, c);
    assert (b - a) * c >= 0;
  }
}
