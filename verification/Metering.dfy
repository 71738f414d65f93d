/**
 * Token accounting (crates/ai-sdk/src/usage.rs) and the running totals the agent keeps
 * from it.  Counts are 64-bit and saturate; money is modelled over `real`.
 */
module Metering {
  import opened Wrappers

  const U64_MAX: nat := 0xFFFF_FFFF_FFFF_FFFF

  type Count = n: nat | n <= U64_MAX

  function SaturatingAdd(a: Count, b: Count): Count {
    if a + b <= U64_MAX then a + b else U64_MAX
  }

  datatype Usage = Usage(
    input: Count, output: Count, cacheCreate: Count, cacheCreate1h: Count,
    cacheRead: Count, reasoning: Count)

  const NO_USAGE := Usage(0, 0, 0, 0, 0, 0)

  function Merge(a: Usage, b: Usage): Usage {
    Usage(
      SaturatingAdd(a.input, b.input),
      SaturatingAdd(a.output, b.output),
      SaturatingAdd(a.cacheCreate, b.cacheCreate),
      SaturatingAdd(a.cacheCreate1h, b.cacheCreate1h),
      SaturatingAdd(a.cacheRead, b.cacheRead),
      SaturatingAdd(a.reasoning, b.reasoning))
  }

  /** What an accumulated tally holds after metering `us` one after another. */
  function MergeAll(start: Usage, us: seq<Usage>): Usage {
    if us == [] then start else Merge(MergeAll(start, us[..|us| - 1]), us[|us| - 1])
  }

  datatype Field = Input | Output | CacheCreate | CacheCreate1h | CacheRead | Reasoning

  function Get(u: Usage, f: Field): Count {
    match f
    case Input => u.input
    case Output => u.output
    case CacheCreate => u.cacheCreate
    case CacheCreate1h => u.cacheCreate1h
    case CacheRead => u.cacheRead
    case Reasoning => u.reasoning
  }

  /** The exact, unbounded total of one field. */
  function Sum(us: seq<Usage>, f: Field): nat {
    if us == [] then 0 else Sum(us[..|us| - 1], f) + Get(us[|us| - 1], f)
  }

  function Min(a: int, b: int): int { if a <= b then a else b }

  /** Saturation happens once, at the end: intermediate clamping loses nothing else. */
  lemma {:induction false} TallyIsClampedSum(start: Usage, us: seq<Usage>, f: Field)
    ensures Get(MergeAll(start, us), f) == Min(Get(start, f) + Sum(us, f), U64_MAX)
  {
    if us != [] {
      TallyIsClampedSum(start, us[..|us| - 1], f);
    }
  }

  /** Metering a batch and then another is metering their concatenation. */
  lemma {:induction false} MergeAllConcat(start: Usage, us: seq<Usage>, vs: seq<Usage>)
    ensures MergeAll(start, us + vs) == MergeAll(MergeAll(start, us), vs)
  {
    if vs == [] {
      assert us + vs == us;
    } else {
      MergeAllConcat(start, us, vs[..|vs| - 1]);
      assert (us + vs)[..|us + vs| - 1] == us + vs[..|vs| - 1];
    }
  }

  /** One more priced request; a single unpriced one makes the total unknown for good. */
  function AddCost(total: Option<real>, step: Option<real>): Option<real> {
    if total.Some? && step.Some? then Some(total.value + step.value) else None
  }

  function CostAll(start: Option<real>, steps: seq<Option<real>>): Option<real> {
    if steps == [] then start else AddCost(CostAll(start, steps[..|steps| - 1]), steps[|steps| - 1])
  }

  function KnownSum(steps: seq<Option<real>>): real
    requires forall i :: 0 <= i < |steps| ==> steps[i].Some?
  {
    if steps == [] then 0.0 else KnownSum(steps[..|steps| - 1]) + steps[|steps| - 1].value
  }

  /** The accumulated cost is known iff every metered request was priced, and is then their sum. */
  lemma {:induction false} CostKnownIffAllPriced(start: Option<real>, steps: seq<Option<real>>)
    ensures CostAll(start, steps).Some? <==>
            start.Some? && forall i :: 0 <= i < |steps| ==> steps[i].Some?
    ensures CostAll(start, steps).Some? ==> CostAll(start, steps).value == start.value + KnownSum(steps)
  {
    if steps != [] {
      var n := |steps| - 1;
      CostKnownIffAllPriced(start, steps[..n]);
      assert forall i :: 0 <= i < n ==> steps[..n][i] == steps[i];
    }
  }
}
