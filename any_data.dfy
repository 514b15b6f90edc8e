/** Ashamane::AnyData (src/common/Common.h): a string-keyed bag of values
    that an entity embeds for its own bookkeeping, with counters that count
    up and fire ("proc") once they reach a threshold.

    The C++ class stores `boost::any`; here the stored values form a closed
    set of kinds. Reading a value back as another kind than the one stored is
    a client error in the source (`bad_any_cast`); here it is excluded by the
    `requires` clauses. */
module Ashamane {
  import opened Types

  /** The kinds of value an entity stores: the `uint32` counters of
      Increment and IncrementOrProcCounter and a few plain scalars. */
  datatype Value = U32(u: uint32) | I32(i: int32) | U64(w: uint64) | Flag(b: bool) | Text(s: string)

  /** Two values of the same C++ type: `any_cast<T>` of one as the other's
      type succeeds. */
  predicate SameKind(a: Value, b: Value) {
    match (a, b)
    case (U32(_), U32(_)) => true
    case (I32(_), I32(_)) => true
    case (U64(_), U64(_)) => true
    case (Flag(_), Flag(_)) => true
    case (Text(_), Text(_)) => true
    case _ => false
  }

  /** A map whose entry for `key`, if any, is a counter. */
  predicate CounterAt(m: map<string, Value>, key: string) {
    key in m ==> m[key].U32?
  }

  /** The counter stored under `key`; 0 when there is none. */
  function Counter(m: map<string, Value>, key: string): uint32
    requires CounterAt(m, key)
  {
    if key in m then m[key].u else 0
  }

  /** Reference semantics of Increment: the new map and the returned value. */
  function IncrementSpec(m: map<string, Value>, key: string, n: uint32): (map<string, Value>, uint32)
    requires CounterAt(m, key)
  {
    var v := ToUint32(Counter(m, key) + n);
    (m[key := U32(v)], v)
  }

  /** Reference semantics of IncrementOrProcCounter: the new map and
      whether the counter fired. */
  function ProcSpec(m: map<string, Value>, key: string, maxVal: uint32, n: uint32): (map<string, Value>, bool)
    requires CounterAt(m, key)
  {
    var (m1, v) := IncrementSpec(m, key, n);
    if v < maxVal then (m1, false) else (m1 - {key}, true)
  }

  class AnyData {
    var dataMap: map<string, Value>

    constructor ()
      ensures dataMap == map[]
    {
      dataMap := map[];
    }

    /** Inserts or overwrites the entry for `key`. */
    method Set(key: string, value: Value)
      modifies this
      ensures dataMap == old(dataMap)[key := value]
      ensures Exist(key)
      ensures forall d :: SameKind(d, value) ==> GetValue(key, d) == value
      ensures forall k :: k != key ==> (k in dataMap <==> k in old(dataMap))
      ensures forall k :: k != key && k in dataMap ==> dataMap[k] == old(dataMap)[k]
    {
      dataMap := dataMap[key := value];
    }

    /** The stored value, or `defaultValue` when `key` has no entry. The
        caller must ask for the kind it stored. */
    function GetValue(key: string, defaultValue: Value): (r: Value)
      reads this
      requires key in dataMap ==> SameKind(dataMap[key], defaultValue)
      ensures SameKind(r, defaultValue)
      ensures key in dataMap ==> r == dataMap[key]
      ensures key !in dataMap ==> r == defaultValue
    {
      if key in dataMap then dataMap[key] else defaultValue
    }

    predicate Exist(key: string)
      reads this
    {
      key in dataMap
    }

    /** Erases the entry for `key`; nothing happens when there is none. */
    method Remove(key: string)
      modifies this
      ensures dataMap == old(dataMap) - {key}
      ensures !Exist(key)
      ensures key !in old(dataMap) ==> dataMap == old(dataMap)
    {
      dataMap := dataMap - {key};
    }

    /** Adds `increment` to the counter under `key` (0 when absent),
        wrapping modulo 2^32, stores it and returns the NEW value. */
    method Increment(key: string, increment: uint32) returns (r: uint32)
      requires CounterAt(dataMap, key)
      modifies this
      ensures (dataMap, r) == IncrementSpec(old(dataMap), key, increment)
      ensures Exist(key) && dataMap[key] == U32(r)
    {
      var current := GetValue(key, U32(0)).u;
      current := ToUint32(current + increment);
      Set(key, U32(current));
      r := current;
    }

    /** Increments the counter; when the new value reaches `maxVal` the
        entry is removed (absent, not zero) and the result is true. */
    method IncrementOrProcCounter(key: string, maxVal: uint32, increment: uint32) returns (proc: bool)
      requires CounterAt(dataMap, key)
      modifies this
      ensures (dataMap, proc) == ProcSpec(old(dataMap), key, maxVal, increment)
      ensures proc <==> !Exist(key)
      ensures CounterAt(dataMap, key)
    {
      var newValue := Increment(key, increment);
      if newValue < maxVal {
        return false;
      }
      Remove(key);
      return true;
    }
  }

  /** Increment stores and returns the previous value plus the increment,
      modulo 2^32, and touches no other key. */
  lemma IncrementReturnsNewValue(m: map<string, Value>, key: string, n: uint32)
    requires CounterAt(m, key)
    ensures IncrementSpec(m, key, n).1 == (Counter(m, key) + n) % TWO_32
    ensures IncrementSpec(m, key, n).0[key] == U32(IncrementSpec(m, key, n).1)
    ensures Counter(m, key) + n < TWO_32 ==> IncrementSpec(m, key, n).1 == Counter(m, key) + n
    ensures IncrementSpec(m, key, n).0 - {key} == m - {key}
  {
  }

  /** The counter fires exactly when the new value reaches the maximum; it
      then leaves the key absent, otherwise the key holds the new value. */
  lemma ProcSpecCases(m: map<string, Value>, key: string, maxVal: uint32, n: uint32)
    requires CounterAt(m, key)
    ensures var v := ToUint32(Counter(m, key) + n);
            && (ProcSpec(m, key, maxVal, n).1 <==> v >= maxVal)
            && (!ProcSpec(m, key, maxVal, n).1 ==> ProcSpec(m, key, maxVal, n).0 == m[key := U32(v)])
            && (ProcSpec(m, key, maxVal, n).1 ==> ProcSpec(m, key, maxVal, n).0 == m - {key})
    ensures maxVal == 0 ==> ProcSpec(m, key, maxVal, n).1
    ensures key !in m && n >= maxVal ==> ProcSpec(m, key, maxVal, n) == (m, true)
  {
    if key !in m && n >= maxVal {
      assert ProcSpec(m, key, maxVal, n).0 == m[key := U32(n)] - {key};
      assert m[key := U32(n)] - {key} == m;
    }
  }

  /** `times` successive IncrementOrProcCounter calls with the same
      arguments: the final map and the results in call order. */
  function ProcRun(m: map<string, Value>, key: string, maxVal: uint32, n: uint32, times: nat)
    : (r: (map<string, Value>, seq<bool>))
    requires CounterAt(m, key)
    ensures CounterAt(r.0, key) && |r.1| == times
  {
    if times == 0 then (m, [])
    else
      var (m1, rs) := ProcRun(m, key, maxVal, n, times - 1);
      var (m2, b) := ProcSpec(m1, key, maxVal, n);
      (m2, rs + [b])
  }

  /** `i` results that are all false. */
  function Falses(i: nat): (r: seq<bool>)
    ensures |r| == i && true !in r
  {
    if i == 0 then [] else Falses(i - 1) + [false]
  }

  /** Before the threshold, unit increments from an absent key leave the
      call count in the counter and fire nothing. */
  lemma {:induction false} ProcRunBelowMax(m: map<string, Value>, key: string, maxVal: uint32, i: nat)
    requires key !in m
    requires 0 < i < maxVal
    ensures ProcRun(m, key, maxVal, 1, i) == (m[key := U32(i)], Falses(i))
  {
    if i > 1 {
      ProcRunBelowMax(m, key, maxVal, i - 1);
      assert m[key := U32(i - 1)][key := U32(i)] == m[key := U32(i)];
    }
  }

  /** "Every Nth event procs": with a threshold of N >= 1 and unit
      increments from an absent key, the first N - 1 calls return false, the
      N-th returns true, and the key is absent again with every other entry
      as it was. */
  lemma ProcFiresEveryNth(m: map<string, Value>, key: string, maxVal: uint32)
    requires key !in m
    requires maxVal >= 1
    ensures ProcRun(m, key, maxVal, 1, maxVal) == (m, Falses(maxVal - 1) + [true])
  {
    if maxVal > 1 {
      ProcRunBelowMax(m, key, maxVal, maxVal - 1);
    }
    var m1 := if maxVal > 1 then m[key := U32(maxVal - 1)] else m;
    assert m1[key := U32(maxVal)] - {key} == m;
  }

  /** The scenario of three calls with a maximum of 3: false, false, true,
      and the key ends absent. */
  lemma ProcThreeCalls(m: map<string, Value>, key: string)
    requires key !in m
    ensures ProcRun(m, key, 3, 1, 3) == (m, [false, false, true])
  {
    ProcFiresEveryNth(m, key, 3);
    assert Falses(1) == [] + [false];
    assert Falses(2) + [true] == [false, false, true];
  }

  /** The same scenario run on an AnyData object. */
  method ThreeProcCalls(data: AnyData, key: string) returns (first: bool, second: bool, third: bool)
    requires !data.Exist(key)
    modifies data
    ensures [first, second, third] == [false, false, true]
    ensures data.dataMap == old(data.dataMap)
  {
    first := data.IncrementOrProcCounter(key, 3, 1);
    second := data.IncrementOrProcCounter(key, 3, 1);
    third := data.IncrementOrProcCounter(key, 3, 1);
    assert data.dataMap == old(data.dataMap)[key := U32(3)] - {key};
  }
}
