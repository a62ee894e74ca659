/** Lists of indexes sent as differences. The running value is a 64-bit word that wraps. */
module DifferenceFormatter {
  datatype Option<T> = None | Some(value: T)

  const UINT64: nat := 0x1_0000_0000_0000_0000
  const UINT64_MAX: nat := UINT64 - 1

  type Uint64 = x: nat | x < 0x1_0000_0000_0000_0000

  class Formatter {
    var shift: Uint64

    constructor ()
      ensures shift == 0
    {
      shift := 0;
    }

    /** The difference to write for a value; refused unless the value is past the one before. */
    method Ser(v: Uint64) returns (r: Option<Uint64>)
      modifies this
      ensures r == if old(shift) <= v < UINT64_MAX then Some((v - old(shift)) as Uint64) else None
      ensures r.Some? ==> shift == v + 1
    {
      if v < shift || v >= UINT64_MAX { return None; }
      r := Some(v - shift);
      shift := (v + 1) % UINT64;
    }

    /** The value for a difference read, for a type with values up to `max`. */
    method Unser(n: Uint64, max: Uint64) returns (r: Option<Uint64>)
      modifies this
      ensures r == if old(shift) + n <= max && old(shift) + n < UINT64_MAX then Some((old(shift) + n) as Uint64) else None
      ensures r.Some? ==> shift == old(shift) + n + 1
    {
      shift := (shift + n) % UINT64;
      if shift < n || shift >= UINT64_MAX || shift > max { return None; }
      r := Some(shift);
      shift := (shift + 1) % UINT64;
    }
  }

  ghost predicate Increasing(vs: seq<Uint64>) {
    forall i, j :: 0 <= i < j < |vs| ==> vs[i] < vs[j]
  }

  /** The first value that may come at place `i`. */
  ghost function Next(vs: seq<Uint64>, i: nat): nat
    requires i <= |vs|
  {
    if i == 0 then 0 else vs[i - 1] as int + 1
  }

  ghost predicate DifferenceAt(vs: seq<Uint64>, ds: seq<Uint64>, i: nat)
    requires i < |vs| == |ds|
  {
    vs[i] == Next(vs, i) + ds[i]
  }

  /** Each value is given by its distance past the one before. */
  ghost predicate Differences(vs: seq<Uint64>, ds: seq<Uint64>) {
    |vs| == |ds| && forall i :: 0 <= i < |vs| ==> DifferenceAt(vs, ds, i)
  }

  /** The value a list of differences leads to at place `i`, without any wrapping. */
  ghost function ValueAt(ds: seq<Uint64>, i: nat): nat
    requires i < |ds|
  {
    (if i == 0 then 0 else ValueAt(ds, i - 1) + 1) + ds[i]
  }

  lemma {:induction false} ValueAtDifference(vs: seq<Uint64>, ds: seq<Uint64>, i: nat)
    requires Differences(vs, ds) && i < |vs|
    ensures ValueAt(ds, i) == vs[i]
  {
    if i > 0 {
      ValueAtDifference(vs, ds, i - 1);
    }
    assert DifferenceAt(vs, ds, i);
  }

  lemma DifferencesNext(vs: seq<Uint64>, ds: seq<Uint64>, v: Uint64, d: Uint64)
    requires Differences(vs, ds) && v == Next(vs, |vs|) + d
    ensures Differences(vs + [v], ds + [d])
  {
    forall i | 0 <= i <= |vs| ensures DifferenceAt(vs + [v], ds + [d], i) {
      if i < |vs| { assert DifferenceAt(vs, ds, i); }
    }
  }

  /** A list coded by differences is increasing. */
  lemma {:induction false} DifferencesIncrease(vs: seq<Uint64>, ds: seq<Uint64>, i: nat, j: nat)
    requires Differences(vs, ds) && i < j < |vs|
    ensures vs[i] < vs[j]
    decreases j
  {
    assert DifferenceAt(vs, ds, j);
    if i < j - 1 {
      DifferencesIncrease(vs, ds, i, j - 1);
    }
  }

  /** A list has one list of differences, and they give one list. */
  lemma DifferencesUnique(vs: seq<Uint64>, ds: seq<Uint64>, vs': seq<Uint64>, ds': seq<Uint64>)
    requires Differences(vs, ds) && Differences(vs', ds')
    ensures vs == vs' <==> ds == ds'
  {
    if vs == vs' {
      forall i | 0 <= i < |ds| ensures ds[i] == ds'[i] {
        assert DifferenceAt(vs, ds, i) && DifferenceAt(vs', ds', i);
      }
    }
    if ds == ds' {
      forall i | 0 <= i < |vs| ensures vs[i] == vs'[i] {
        ValueAtDifference(vs, ds, i);
        ValueAtDifference(vs', ds', i);
      }
    }
  }

  /** Write a whole list: it succeeds exactly for increasing lists below the largest word. */
  method Encode(vs: seq<Uint64>) returns (r: Option<seq<Uint64>>)
    ensures r.Some? <==> Increasing(vs) && forall i :: 0 <= i < |vs| ==> vs[i] < UINT64_MAX
    ensures r.Some? ==> Differences(vs, r.value)
  {
    hide Differences;
    var f := new Formatter();
    var ds := [];
    StartOf(vs);
    for i := 0 to |vs|
      invariant f.shift == Next(vs, i) && |ds| == i
      invariant Differences(vs[..i], ds)
      invariant forall k :: 0 <= k < i ==> vs[k] < UINT64_MAX
    {
      var d := f.Ser(vs[i]);
      if d.None? {
        assert i > 0 && vs[i] < UINT64_MAX ==> vs[i - 1] >= vs[i];
        return None;
      }
      DifferencesNext(vs[..i], ds, vs[i], d.value);
      assert vs[..i + 1] == vs[..i] + [vs[i]];
      ds := ds + [d.value];
    }
    assert vs[..|vs|] == vs;
    forall i, j | 0 <= i < j < |vs| ensures vs[i] < vs[j] { DifferencesIncrease(vs, ds, i, j); }
    return Some(ds);
  }

  lemma StartOf(vs: seq<Uint64>)
    ensures Differences(vs[..0], [])
  {
  }

  /** Read a whole list: it succeeds exactly when no value, reckoned without wrapping, goes
    * past the largest allowed.
    */
  method Decode(ds: seq<Uint64>, max: Uint64) returns (r: Option<seq<Uint64>>)
    ensures r.Some? <==> forall i :: 0 <= i < |ds| ==> ValueAt(ds, i) <= max && ValueAt(ds, i) < UINT64_MAX
    ensures r.Some? ==> Differences(r.value, ds) && Increasing(r.value)
  {
    hide Differences;
    var f := new Formatter();
    var vs: seq<Uint64> := [];
    StartOf(vs);
    assert vs[..0] == [] && ds[..0] == [];
    for i := 0 to |ds|
      invariant |vs| == i && f.shift == Next(vs, i) && (i > 0 ==> vs[i - 1] == ValueAt(ds, i - 1))
      invariant Differences(vs, ds[..i])
      invariant forall k :: 0 <= k < i ==> ValueAt(ds, k) <= max && ValueAt(ds, k) < UINT64_MAX
    {
      assert ValueAt(ds, i) == f.shift as int + ds[i];
      var v := f.Unser(ds[i], max);
      if v.None? { return None; }
      DifferencesNext(vs, ds[..i], v.value, ds[i]);
      assert ds[..i + 1] == ds[..i] + [ds[i]];
      vs := vs + [v.value];
    }
    assert ds[..|ds|] == ds;
    forall i, j | 0 <= i < j < |vs| ensures vs[i] < vs[j] { DifferencesIncrease(vs, ds, i, j); }
    return Some(vs);
  }

  lemma SameLength(vs: seq<Uint64>, ds: seq<Uint64>)
    requires Differences(vs, ds)
    ensures |vs| == |ds|
  {
  }

  /** Writing and reading a list of 16-bit indexes: it is written exactly when it is increasing,
    * and then read back as it was.
    */
  method RoundTrip(vs: seq<Uint64>) returns (written: bool, vs': Option<seq<Uint64>>)
    requires forall i :: 0 <= i < |vs| ==> vs[i] <= 65535
    ensures written <==> Increasing(vs)
    ensures written ==> vs' == Some(vs)
  {
    hide Differences, ValueAt;
    var ds := Encode(vs);
    written, vs' := ds.Some?, None;
    if written {
      SameLength(vs, ds.value);
      forall i | 0 <= i < |vs| ensures ValueAt(ds.value, i) == vs[i] { ValueAtDifference(vs, ds.value, i); }
      vs' := Decode(ds.value, 65535);
      DifferencesUnique(vs, ds.value, vs'.value, ds.value);
    }
  }

  /** Reading and writing: what is accepted is written as it was read. */
  method ReadBack(ds: seq<Uint64>, max: Uint64) returns (read: bool, ds': Option<seq<Uint64>>)
    ensures read <==> forall i :: 0 <= i < |ds| ==> ValueAt(ds, i) <= max && ValueAt(ds, i) < UINT64_MAX
    ensures read ==> ds' == Some(ds)
  {
    hide Differences, ValueAt;
    var vs := Decode(ds, max);
    read, ds' := vs.Some?, None;
    if read {
      SameLength(vs.value, ds);
      forall i | 0 <= i < |ds| ensures vs.value[i] < UINT64_MAX { ValueAtDifference(vs.value, ds, i); }
      ds' := Encode(vs.value);
      DifferencesUnique(vs.value, ds, vs.value, ds'.value);
    }
  }
}
