# isync containers in Dafny

A model of the two generic containers of the Go library `isync`: `Vec[T]`, a
resizable array (package `vector`), and `Map[T]`, a string-keyed dictionary
(package `isync`). Each Go type wraps a native slice or map behind a
`sync.Mutex`. Its "safe" methods take the lock for one call. The "Unsafe"
methods expect the caller to hold it. Run on their own, the two variants of a
pair do the same thing. So the model drops the mutex and states each pair's
sequential behaviour once, under the name of the unsafe variant.

- `vector.dfy`, module `Vector`: the class `Vec<T>` with the field
  `vals: seq<T>`. The in-place operations are methods with
  `modifies this`: `Append`, `Push`, `Pop`, `UnsafeRemove` and `UnsafeSet`.
  Each one states the new `vals` in terms of the old one, and the error case
  leaves `vals` unchanged. The reads are functions of the object: `UnsafeLen`
  and `UnsafeAt`. `UnsafeSlice` returns a fresh array. The copying
  operations are functions over sequences, with methods that wrap the result
  in a fresh `Vec`: `MappedUpTo` and `UnsafeMap`, `FilteredUpTo` and
  `UnsafeFilter`, `NewVals` and `NewVec`. `UnsafeRemove` shifts the elements
  the way the source does, through a model of Go's built-in `copy`. Errors
  are the datatype `Error`: `BadParam`, `EndOfStack` (Go's `ErrEOS`) and
  `OutOfRange(len, idx)`.
- `isync.dfy`, module `Isync`: the class `Map<T>` with the field
  `storage: map<string, T>`. `Store`, `UnsafeDelete` and `ForEachAndDel`
  change it in place. `Load` is a function of the object. `ForEach` reads
  only. `ForEachAndDel` visits the keys in an order the model does not fix:
  each step picks any key not yet visited. It is proved to leave exactly the
  entries its callback rejects. It also returns, as a ghost value, the order
  it visited the keys in, and proves that its result is `DeleteWalk` over that
  order. The lemma `DeleteWalkAnyOrder` shows that `DeleteWalk` over every
  enumeration order of the keys gives the same map.

Go's zero value of `T` cannot be written generically in Dafny. `NewVec`
therefore takes it as a parameter, and `Map` keeps it in the constant field
`zero`, given to its constructor (`NewMap`).

`Load` of an absent key returns Go's zero value of `T`. The out-of-range
error is an unnamed `fmt.Errorf` value carrying the length and the index;
the model keeps those two numbers in `OutOfRange(len, idx)`.

## Model

| member | source | states |
|---|---|---|
| `Vector.CheckIndex` | vector/vector.go:74-76 | An index passes exactly when `0 <= i < len`; otherwise the error carries the length and the index. |
| `Vector.Removed` | vector/vector.go:63 | Removing index `i` shortens the sequence by one, keeps the elements before `i` and shifts every later element left by one. |
| `Vector.Copy` | vector/vector.go:63 | Go's `copy(dst, src)` copies `min(len(dst), len(src))` elements: that prefix of the result is `src`'s, the rest is `dst`'s unchanged, and the count is returned. |
| `Vector.Vec.constructor` | vector/vector.go:144-155 | A vector built from a slice literal holds exactly that slice (the struct literals of NewVec, UnsafeMap and UnsafeFilter). |
| `Vector.Vec.Append` | vector/vector.go:18-22 | The new `vals` is the old one with `v` added at the end. |
| `Vector.Vec.Push` | vector/vector.go:34-36 | Push behaves exactly as Append. |
| `Vector.Vec.UnsafeLen` | vector/vector.go:24-32 | The length is the number of indices that `UnsafeAt` accepts. |
| `Vector.Vec.UnsafeAt` | vector/vector.go:67-78 | In range, the result is the element at `i`; out of range (`i < 0` or `i >= len`), an `OutOfRange(len, i)` error. |
| `Vector.Vec.UnsafeRemove` | vector/vector.go:58-65 | Valid `i`: `vals` becomes `Removed(old vals, i)`. Invalid `i`: an `OutOfRange(len, i)` error and `vals` unchanged. |
| `Vector.Vec.Pop` | vector/vector.go:40-54 | Empty: `EndOfStack` and nothing changes. Non-empty: returns the old last element, and `vals` loses exactly that element. The inner removal error cannot happen. |
| `Vector.Vec.UnsafeSet` | vector/vector.go:100-112 | In range, `vals` becomes the old `vals` with `idx` overwritten by `v`. Out of range, an `OutOfRange(len, idx)` error and nothing changes. |
| `Vector.Vec.UnsafeSlice` | vector/vector.go:80-90 | Returns a newly allocated array equal to `vals`, so writes to it cannot reach the vector. |
| `Vector.MappedUpTo` | vector/vector.go:114-119 | The mapped sequence has the same length, and element `j` is `iter(vals[j], j)`. |
| `Vector.KeptUpTo` | vector/vector.go:133-138 | The kept indices are strictly increasing and in range, and an index is kept exactly when the predicate holds of its element and index. |
| `Vector.FilteredUpTo` | vector/vector.go:133-138 | The filtered sequence is the elements at the kept indices, in their original order, and nothing else. |
| `Vector.UnsafeMap` | vector/vector.go:114-125 | Returns a fresh vector of `iter(element, index)`, with the same length and order, and leaves the source alone. |
| `Vector.UnsafeFilter` | vector/vector.go:127-138 | Returns a fresh vector holding the filtered elements and leaves the source alone. |
| `Vector.NewVals` | vector/vector.go:140-158 | 0 parameters give no elements. 1 or 2 parameters give `params[0]` zero values. 3 or more give `BadParam`. |
| `Vector.NewVec` | vector/vector.go:140-158 | Succeeds exactly when there are at most two parameters, with a fresh vector holding `NewVals`. Otherwise the result is `BadParam` and no vector. |
| `Vector.AtAfterSet` | vector/vector.go:100-112 | After a successful set, `At(idx)` gives the new value and every other index reads as before. After a failed set, every index reads as before. |
| `Vector.PushAll` | vector/vector_test.go:115-117 | Pushing the elements of a list one by one into a new vector leaves exactly that list. |
| `Vector.AppendThenSlice` | vector/vector_test.go:18-88 | Appending a list to an empty vector gives back that list through Slice, and Len is its length. |
| `Vector.PushThenPopAll` | vector/vector_test.go:123-170 | Pushing a list and popping until `EndOfStack` yields the list reversed. |
| `Vector.RemoveCases` | vector/vector_test.go:180-259 | The removal test cases: removing the first letter and the last digit succeeds and gives the expected remainder, and indices -1 and 10 of a 10-element vector are errors. |
| `Vector.AtCases` | vector/vector_test.go:269-335 | The indexed-read test cases: index 0 gives `'a'`, index 9 gives `9`, and -1 and 10 are out-of-range errors. |
| `Isync.Map.constructor` | map.go:5-10 | `NewMap` gives empty storage. |
| `Isync.Map.Load` | map.go:17-22 | `found` holds exactly when the key is stored; the value is then the stored one, and otherwise the zero value. |
| `Isync.Map.Store` | map.go:24-28 | The new storage is the old one with `key` mapped to `v`; no other key changes. |
| `Isync.Map.UnsafeDelete` | map.go:38-40 | The new storage is the old one without `key`. Deleting an absent key changes nothing. |
| `Isync.Map.ForEach` | map.go:42-49 | Every entry is handed to the callback exactly once, and the storage is not written. |
| `Isync.Map.ForEachAndDel` | map.go:51-61 | Each original key is visited exactly once, in some order; the result is `DeleteWalk` over that order, and it equals `Retained`: exactly the entries the callback returns false for remain, with their values. |
| `Isync.Retained` | map.go:51-61 | The retained map holds exactly the entries of the original for which the callback returns false, with their original values. |
| `Isync.DeleteWalk` | map.go:55-60 | The delete loop run over a given visiting order only removes entries: whatever remains is in the starting storage with the same value. |
| `Isync.DeleteWalkRemovesSelected` | map.go:55-60 | A walk over any key sequence removes exactly the visited keys the callback selects and keeps every other entry's value. |
| `Isync.DeleteWalkAnyOrder` | map.go:51-61 | Every order that visits all keys of the map leaves the same result: the retained entries. |
| `Isync.Stored` | map.go:24-28 | The storage after a series of `Store` calls into an empty map: every entry in it was put there by one of those stores. |
| `Isync.StoredLastWins` | map.go:24-28 | After a series of stores, a key is present exactly when some store used it, and its value is that of the last such store. |
| `Isync.LoadAfterStores` | map_test.go:22-88 | After storing a list of pairs, `Load` finds a key exactly when some pair had it, and returns the value of the last such pair. Otherwise it returns the zero value. |
| `Isync.LoadAfterStore` | map_test.go:71-86 | After `Store(key, v)`, `Load(key)` gives `(v, true)`, and every other key loads as before. |
| `Isync.LoadAfterDelete` | map_test.go:90-118 | After `UnsafeDelete(key)`, `Load(key)` gives the zero value and false, and every other key loads as before. |
| `Isync.DeleteCases` | map_test.go:90-118 | The delete test: deleting an absent key is a no-op and keeps `foo`; deleting `foo` removes it. |
| `Isync.ForEachAndDelCase` | map.go:51-61 | On `{"foo": "bar", "hoge": "fuga"}`, deleting where the key is `foo` leaves `{"hoge": "fuga"}`. |

## Left out

- The `sync.Mutex` fields, `Lock`/`Unlock` (vector/vector.go:92-98, map.go:30-36) and the lock/unlock bracketing of the safe methods. They serve concurrency only, which is not modelled. Run on its own, a safe method does what its unsafe twin does.
- `ErrLockFailed` (vector/vector.go:56): declared but never returned.
- The error message text built with `fmt.Errorf`. Errors are datatype values.
- `At` and `Pop` return a pointer `*T`. The model returns the value, so writes through that pointer (aliasing into `vals` for `At`) are not modelled.
- Slice capacity. The two-parameter `NewVec` requires `n <= c`, because Go's `make` panics otherwise. The capacity has no other visible effect.
- `lo.Map` and `lo.Filter` come from a third-party library. Their meaning is defined directly, by recursion over the elements in index order.
- Callbacks are pure Dafny functions. Their side effects, and callbacks that call back into the container, are not modelled.
- Isync.Map.ForEach: the callback returns nothing in Go. The model takes a callback with any result type and returns the visit order and the results, as a record of the calls.
- Go's randomised map iteration order is modelled as nondeterministic choice (`:|`) of the next unvisited key.
- Go's `int` and `uint` are unbounded integers here. Lengths and indices never come near 2^63.
- `UnsafeMap` and `UnsafeFilter` on a nil vector pointer (a Go panic): Dafny references here are non-null.
- The parallel test harness (`t.Parallel`, `lop.ForEach`).
