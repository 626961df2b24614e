/// Model of package `vector`: a resizable array of T (the Go slice `vals`)
/// that the original guards with a mutex. The mutex is not modelled: a safe
/// operation and its unsafe twin behave the same when run alone, so each pair
/// is modelled once.
module Vector {

  /** The errors the vector reports. */
  datatype Error =
    | BadParam                       // NewVec was given three or more sizing parameters
    | EndOfStack                     // Pop on an empty vector
    | OutOfRange(len: int, idx: int) // positional access outside [0, len)

  /** A value, or the error that took its place. */
  datatype Result<V> = Ok(value: V) | Err(error: Error)

  /** The `error` return of an operation that yields nothing else. */
  datatype Outcome = Pass | Fail(error: Error)

  /** The bounds check that every positional operation performs first. */
  function CheckIndex(len: nat, i: int): (r: Outcome)
    ensures r.Pass? <==> 0 <= i < len
    ensures r.Fail? ==> r.error == OutOfRange(len, i)
  {
    if i < 0 || len <= i then Fail(OutOfRange(len, i)) else Pass
  }

  /** `s` without its element at `i`: the prefix stays, the suffix moves left by one. */
  function Removed<T>(s: seq<T>, i: nat): (r: seq<T>)
    requires i < |s|
    ensures |r| == |s| - 1
    ensures forall j :: 0 <= j < i ==> r[j] == s[j]
    ensures forall j :: i <= j < |r| ==> r[j] == s[j + 1]
  {
    s[..i] + s[i + 1..]
  }

  /**
   * Go's built-in `copy(dst, src)`: copies the first min(|dst|, |src|)
   * elements of `src` over those of `dst`, and returns the new `dst` together
   * with the number of elements copied. `src` is read as it was before the
   * copy, which is what Go guarantees when the two slices overlap.
   */
  method Copy<T>(dst: seq<T>, src: seq<T>) returns (r: seq<T>, n: nat)
    ensures n == if |dst| < |src| then |dst| else |src|
    ensures |r| == |dst|
    ensures r[..n] == src[..n]
    ensures r[n..] == dst[n..]
  {
    n := if |dst| < |src| then |dst| else |src|;
    r := dst;
    var j := 0;
    while j < n
      invariant 0 <= j <= n
      invariant |r| == |dst|
      invariant forall k :: 0 <= k < j ==> r[k] == src[k]
      invariant forall k :: j <= k < |r| ==> r[k] == dst[k]
    {
      r := r[j := src[j]];
      j := j + 1;
    }
  }

  class Vec<T> {
    /** The elements, in order. */
    var vals: seq<T>

    /** A vector holding `vals` (the composite literal `&Vec[T]{vals: ...}`). */
    constructor (vals: seq<T>)
      ensures this.vals == vals
    {
      this.vals := vals;
    }

    /** Append: adds `v` at the end. */
    method Append(v: T)
      modifies this
      ensures vals == old(vals) + [v]
    {
      vals := vals + [v];
    }

    /** Push is Append under another name. */
    method Push(v: T)
      modifies this
      ensures vals == old(vals) + [v]
    {
      Append(v);
    }

    /** Len / UnsafeLen: the number of elements, which is the number of indices At accepts. */
    function UnsafeLen(): (n: nat)
      reads this
      ensures forall i :: 0 <= i < n <==> UnsafeAt(i).Ok?
    {
      |vals|
    }

    /** At / UnsafeAt: the element at `i`, or an out-of-range error carrying the length and `i`. */
    function UnsafeAt(i: int): (r: Result<T>)
      reads this
      ensures r.Ok? <==> 0 <= i < |vals|
      ensures r.Ok? ==> r.value == vals[i]
      ensures r.Err? ==> r.error == OutOfRange(|vals|, i)
    {
      match CheckIndex(|vals|, i)
      case Fail(e) => Err(e)
      case Pass => Ok(vals[i])
    }

    /**
     * Removes the element at `i`, shifting the later ones left by one, as the
     * source does: copy vals[i+1..] over vals[i..], then drop the last slot.
     * An index out of range changes nothing.
     */
    method UnsafeRemove(i: int) returns (e: Outcome)
      modifies this
      ensures e.Pass? <==> 0 <= i < |old(vals)|
      ensures e.Fail? ==> e.error == OutOfRange(|old(vals)|, i) && vals == old(vals)
      ensures e.Pass? ==> vals == Removed(old(vals), i)
    {
      e := CheckIndex(|vals|, i);
      if e.Fail? {
        return;
      }
      var shifted, n := Copy(vals[i..], vals[i + 1..]);
      vals := (vals[..i] + shifted)[..i + n];
    }

    /** Removes and returns the last element; EndOfStack when there is none. */
    method Pop() returns (r: Result<T>)
      modifies this
      ensures old(vals) == [] ==> r == Err(EndOfStack) && vals == old(vals)
      ensures old(vals) != [] ==> r == Ok(old(vals)[|old(vals)| - 1])
      ensures old(vals) != [] ==> vals == old(vals)[..|old(vals)| - 1]
    {
      var l := UnsafeLen();
      if l == 0 {
        return Err(EndOfStack);
      }
      var ret := vals[l - 1];
      var delErr := UnsafeRemove(l - 1);
      match delErr
      case Fail(err) =>
        // unreachable: l - 1 is in range
        assert false;
        return Err(err);
      case Pass =>
        return Ok(ret);
    }

    /** Set / UnsafeSet: overwrites the element at `idx`; out of range changes nothing. */
    method UnsafeSet(idx: int, v: T) returns (e: Outcome)
      modifies this
      ensures e.Pass? <==> 0 <= idx < |old(vals)|
      ensures e.Fail? ==> e.error == OutOfRange(|old(vals)|, idx) && vals == old(vals)
      ensures e.Pass? ==> vals == old(vals)[idx := v]
    {
      e := CheckIndex(|vals|, idx);
      if e.Pass? {
        vals := vals[idx := v];
      }
    }

    /** Slice / UnsafeSlice: a new array holding a copy of the elements. */
    method UnsafeSlice() returns (ret: array<T>)
      ensures fresh(ret)
      ensures ret[..] == vals
    {
      var s := vals;
      ret := new T[|s|](j requires 0 <= j < |s| => s[j]);
    }
  }

  /** The first `n` elements of `s`, each replaced by `f(element, index)`. */
  function MappedUpTo<T, R>(s: seq<T>, f: (T, int) -> R, n: nat): (r: seq<R>)
    requires n <= |s|
    ensures |r| == n
    ensures forall j :: 0 <= j < n ==> r[j] == f(s[j], j)
    decreases n
  {
    if n == 0 then [] else MappedUpTo(s, f, n - 1) + [f(s[n - 1], n - 1)]
  }

  /** The indices j < n whose element `p` keeps, in increasing order. */
  function KeptUpTo<T>(s: seq<T>, p: (T, int) -> bool, n: nat): (idx: seq<nat>)
    requires n <= |s|
    ensures forall k :: 0 <= k < |idx| ==> idx[k] < n
    ensures forall k, l :: 0 <= k < l < |idx| ==> idx[k] < idx[l]
    ensures forall j :: 0 <= j < n ==> (j in idx <==> p(s[j], j))
    decreases n
  {
    if n == 0 then []
    else KeptUpTo(s, p, n - 1) + (if p(s[n - 1], n - 1) then [n - 1] else [])
  }

  /** The elements among the first `n` that `p(element, index)` keeps, in their order. */
  function FilteredUpTo<T>(s: seq<T>, p: (T, int) -> bool, n: nat): (r: seq<T>)
    requires n <= |s|
    ensures |r| == |KeptUpTo(s, p, n)|
    ensures forall k :: 0 <= k < |r| ==> r[k] == s[KeptUpTo(s, p, n)[k]]
    decreases n
  {
    if n == 0 then []
    else
      var kept := p(s[n - 1], n - 1);
      assert KeptUpTo(s, p, n) == KeptUpTo(s, p, n - 1) + (if kept then [n - 1] else []);
      FilteredUpTo(s, p, n - 1) + (if kept then [s[n - 1]] else [])
  }

  /** Map / UnsafeMap: a new vector of `iter(element, index)`, same length and order. */
  method UnsafeMap<T, R>(collection: Vec<T>, iter: (T, int) -> R) returns (r: Vec<R>)
    ensures fresh(r)
    ensures |r.vals| == |collection.vals|
    ensures forall j :: 0 <= j < |r.vals| ==> r.vals[j] == iter(collection.vals[j], j)
  {
    r := new Vec(MappedUpTo(collection.vals, iter, |collection.vals|));
  }

  /** Filter / UnsafeFilter: a new vector of the elements `pred` keeps, in order. */
  method UnsafeFilter<T>(collection: Vec<T>, pred: (T, int) -> bool) returns (r: Vec<T>)
    ensures fresh(r)
    ensures r.vals == FilteredUpTo(collection.vals, pred, |collection.vals|)
  {
    r := new Vec(FilteredUpTo(collection.vals, pred, |collection.vals|));
  }

  /**
   * The elements NewVec starts with, given Go's zero value of T: none for no
   * parameter, `params[0]` zero values for one or two (the second is a
   * capacity, which has no visible effect), BadParam for more.
   */
  function NewVals<T>(zero: T, params: seq<nat>): (r: Result<seq<T>>)
    requires |params| == 2 ==> params[0] <= params[1]
    ensures r.Ok? <==> |params| <= 2
    ensures r.Err? ==> r.error == BadParam
    ensures r.Ok? ==> |r.value| == (if |params| == 0 then 0 else params[0])
    ensures r.Ok? ==> forall x :: x in r.value ==> x == zero
  {
    if |params| == 0 then Ok([])
    else if |params| <= 2 then Ok(seq(params[0], _ => zero))
    else Err(BadParam)
  }

  /** NewVec: a fresh vector built from the sizing parameters, or BadParam. */
  method NewVec<T>(zero: T, params: seq<nat>) returns (r: Result<Vec<T>>)
    requires |params| == 2 ==> params[0] <= params[1]
    ensures r.Ok? <==> |params| <= 2
    ensures r.Err? ==> r.error == BadParam
    ensures r.Ok? ==> fresh(r.value) && r.value.vals == NewVals(zero, params).value
  {
    var vals := NewVals(zero, params);
    if vals.Err? {
      return Err(vals.error);
    }
    var v := new Vec(vals.value);
    return Ok(v);
  }

  /**
   * After UnsafeSet(idx, x) succeeds, At(idx) gives x and every other index
   * reads as before; after it fails, every index reads as before.
   */
  method AtAfterSet<T>(v: Vec<T>, idx: int, x: T, probe: int) returns (e: Outcome, r: Result<T>)
    modifies v
    ensures e.Pass? <==> 0 <= idx < |old(v.vals)|
    ensures r == if e.Pass? && probe == idx then Ok(x) else old(v.UnsafeAt(probe))
  {
    e := v.UnsafeSet(idx, x);
    r := v.UnsafeAt(probe);
  }

  /** A fresh vector built by pushing the elements of `xs` one by one. */
  method PushAll<T>(xs: seq<T>) returns (v: Vec<T>)
    ensures fresh(v) && v.vals == xs
  {
    v := new Vec([]);
    var i := 0;
    while i < |xs|
      invariant 0 <= i <= |xs|
      invariant v.vals == xs[..i]
    {
      v.Push(xs[i]);
      i := i + 1;
    }
  }

  /** Appending a list to an empty vector gives back that list, and Len its length. */
  method AppendThenSlice<T>(xs: seq<T>) returns (snapshot: seq<T>, len: nat)
    ensures snapshot == xs
    ensures len == |xs|
  {
    var v := new Vec([]);
    var i := 0;
    while i < |xs|
      invariant 0 <= i <= |xs|
      invariant v.vals == xs[..i]
    {
      v.Append(xs[i]);
      i := i + 1;
    }
    var copy := v.UnsafeSlice();
    snapshot := copy[..];
    len := v.UnsafeLen();
  }

  /** Pushing a list and popping until EndOfStack yields the list reversed. */
  method PushThenPopAll<T>(xs: seq<T>) returns (popped: seq<T>)
    ensures |popped| == |xs|
    ensures forall k :: 0 <= k < |xs| ==> popped[k] == xs[|xs| - 1 - k]
  {
    var v := PushAll(xs);
    popped := [];
    while true
      invariant |v.vals| + |popped| == |xs|
      invariant v.vals == xs[..|v.vals|]
      invariant forall k :: 0 <= k < |popped| ==> popped[k] == xs[|xs| - 1 - k]
      decreases |v.vals|
    {
      var r := v.Pop();
      if r.Err? {
        break;
      }
      popped := popped + [r.value];
    }
  }

  /** The removal cases of the vector tests: first index, last index, -1 and len. */
  method RemoveCases() returns (firstOk: Outcome, first: seq<char>, lastOk: Outcome, last: seq<int>, below: Outcome, above: Outcome)
    ensures firstOk == Pass && lastOk == Pass
    ensures first == "bcdefghijkl"
    ensures last == [0, 1, 2, 3, 4, 5, 6, 7, 8]
    ensures below == Fail(OutOfRange(10, -1))
    ensures above == Fail(OutOfRange(10, 10))
  {
    var letters := PushAll("abcdefghijkl");
    firstOk := letters.UnsafeRemove(0);
    first := letters.vals;
    var digits := PushAll([0, 1, 2, 3, 4, 5, 6, 7, 8, 9]);
    lastOk := digits.UnsafeRemove(9);
    last := digits.vals;
    var ten := PushAll([0, 1, 2, 3, 4, 5, 6, 7, 8, 9]);
    below := ten.UnsafeRemove(-1);
    above := ten.UnsafeRemove(10);
  }

  /** The indexed-read cases of the vector tests. */
  method AtCases() returns (first: Result<char>, last: Result<int>, below: Result<int>, above: Result<int>)
    ensures first == Ok('a')
    ensures last == Ok(9)
    ensures below == Err(OutOfRange(10, -1))
    ensures above == Err(OutOfRange(10, 10))
  {
    var letters := PushAll("abcdefghijkl");
    first := letters.UnsafeAt(0);
    var digits := PushAll([0, 1, 2, 3, 4, 5, 6, 7, 8, 9]);
    last := digits.UnsafeAt(9);
    below := digits.UnsafeAt(-1);
    above := digits.UnsafeAt(10);
  }
}
