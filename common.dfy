/** Failure-compatible wrappers used across the model. */
module Wrappers {

  datatype Option<+T> = None | Some(value: T)

  /** The outcome of an operation that returns nothing on success and raises otherwise. */
  datatype Outcome<+E> = Pass | Fail(error: E)

  /** The outcome of an operation that returns a value on success and raises otherwise. */
  datatype Result<+R, +E> = Success(value: R) | Failure(error: E)
}

/** The exception classes of mistral that the core raises (mistral.exceptions, plus two Python built-ins). */
module Exceptions {

  datatype Exception =
    | InvalidModelException
    | DSLParsingException
    | InputException
    | WorkflowException
    | EngineException
      /** Python's IndexError, raised by sequence indexing past the end. */
    | IndexError
      /** Python's TypeError, raised by arithmetic on None. */
    | TypeError
}

/** JSON-like values carried in definitions, inputs and parameters. */
module Values {

  datatype Value =
    | Null
    | Bool(b: bool)
    | Int(i: int)
    | Str(s: string)
    | List(items: seq<Value>)
    | Dict(entries: map<string, Value>)
}

/** Execution states (mistral.workflow.states). */
module States {

  datatype State = Idle | Waiting | Running | Success | Error | Paused

  /** The state names as the engine stores them. */
  function Name(s: State): (n: string)
    ensures n != ""
  {
    match s
    case Idle => "IDLE"
    case Waiting => "WAITING"
    case Running => "RUNNING"
    case Success => "SUCCESS"
    case Error => "ERROR"
    case Paused => "PAUSED"
  }

  /** A state is completed when it is terminal: SUCCESS or ERROR. */
  predicate IsCompleted(s: State) {
    s == Success || s == Error
  }
}

/** Sequence operations for the Python built-ins the core uses: filter, len of a filter,
    sorted(set(...)), range, max and slicing. */
module Seqs {

  /** `sub` is `s` with some elements deleted and the rest kept in order. */
  predicate IsSubsequence<T(==)>(sub: seq<T>, s: seq<T>)
    decreases |s|
  {
    if sub == [] then true
    else if s == [] then false
    else if sub[0] == s[0] then IsSubsequence(sub[1..], s[1..])
    else IsSubsequence(sub, s[1..])
  }

  /** The number of elements of `s` that satisfy `p`. */
  function CountWhere<T>(s: seq<T>, p: T -> bool): nat
  {
    if s == [] then 0 else (if p(s[0]) then 1 else 0) + CountWhere(s[1..], p)
  }

  /** The elements of `s` that satisfy `p`, in their original order (Python's `filter`
      and list comprehensions with a condition; materialised, not lazy). */
  function Filter<T(==,!new)>(s: seq<T>, p: T -> bool): (r: seq<T>)
    ensures forall x :: x in r <==> x in s && p(x)
    ensures IsSubsequence(r, s)
    ensures |r| == CountWhere(s, p)
  {
    if s == [] then []
    else if p(s[0]) then [s[0]] + Filter(s[1..], p)
    else Filter(s[1..], p)
  }

  /** Counting with a weaker predicate never counts fewer elements. */
  lemma {:induction false} CountWhereMonotone<T>(s: seq<T>, p: T -> bool, q: T -> bool)
    requires forall x :: p(x) ==> q(x)
    ensures CountWhere(s, p) <= CountWhere(s, q)
  {
    if s != [] {
      CountWhereMonotone(s[1..], p, q);
    }
  }

  /** No predicate counts more elements than there are. */
  lemma {:induction false} CountWhereAtMostLength<T>(s: seq<T>, p: T -> bool)
    ensures CountWhere(s, p) <= |s|
  {
    if s != [] {
      CountWhereAtMostLength(s[1..], p);
    }
  }

  /** A predicate that holds of every element counts every element. */
  lemma {:induction false} CountWhereAll<T>(s: seq<T>, p: T -> bool)
    requires forall i :: 0 <= i < |s| ==> p(s[i])
    ensures CountWhere(s, p) == |s|
  {
    if s != [] {
      CountWhereAll(s[1..], p);
    }
  }

  /** A predicate that holds of no element counts nothing. */
  lemma {:induction false} CountWhereNone<T>(s: seq<T>, p: T -> bool)
    requires forall i :: 0 <= i < |s| ==> !p(s[i])
    ensures CountWhere(s, p) == 0
  {
    if s != [] {
      CountWhereNone(s[1..], p);
    }
  }

  predicate StrictlyIncreasing(s: seq<nat>) {
    forall i, j :: 0 <= i < j < |s| ==> s[i] < s[j]
  }

  /** Joining two strictly increasing sequences, the first wholly below the second. */
  lemma ConcatIncreasing(a: seq<nat>, b: seq<nat>)
    requires StrictlyIncreasing(a) && StrictlyIncreasing(b)
    requires forall i, j :: 0 <= i < |a| && 0 <= j < |b| ==> a[i] < b[j]
    ensures StrictlyIncreasing(a + b)
  {
  }

  /** Python's `list(range(lo, hi))`: empty when `hi <= lo`. */
  function Range(lo: nat, hi: int): (r: seq<nat>)
    ensures |r| == if lo < hi then hi - lo else 0
    ensures forall i :: 0 <= i < |r| ==> r[i] == lo + i
    ensures forall x :: x in r <==> lo <= x < hi
    decreases hi - lo
  {
    if lo < hi then [lo] + Range(lo + 1, hi) else []
  }

  /** Inserts `x` into a strictly increasing sequence, dropping it if already present. */
  function InsertSorted(x: nat, s: seq<nat>): (r: seq<nat>)
    requires StrictlyIncreasing(s)
    ensures StrictlyIncreasing(r)
    ensures forall y :: y in r <==> y == x || y in s
  {
    if s == [] then [x]
    else if x < s[0] then [x] + s
    else if x == s[0] then s
    else
      var rest := InsertSorted(x, s[1..]);
      assert forall k :: 0 <= k < |rest| ==> rest[k] in rest;
      [s[0]] + rest
  }

  /** Python's `sorted(set(xs))`. */
  function SortedDistinct(xs: seq<nat>): (r: seq<nat>)
    ensures StrictlyIncreasing(r)
    ensures forall y :: y in r <==> y in xs
  {
    if xs == [] then [] else InsertSorted(xs[0], SortedDistinct(xs[1..]))
  }

  /** Python's `max(xs)` on a non-empty list. */
  function Max(xs: seq<nat>): (m: nat)
    requires xs != []
    ensures m in xs
    ensures forall y :: y in xs ==> y <= m
  {
    if |xs| == 1 then xs[0]
    else
      var rest := Max(xs[1..]);
      assert xs == [xs[0]] + xs[1..];
      if xs[0] >= rest then xs[0] else rest
  }

  /** Python's `s[:n]` for a non-negative `n`. */
  function Take<T>(s: seq<T>, n: nat): (r: seq<T>)
    ensures |r| == if n < |s| then n else |s|
    ensures forall i :: 0 <= i < |r| ==> r[i] == s[i]
    ensures r <= s
  {
    if n < |s| then s[..n] else s
  }
}
