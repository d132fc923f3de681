/** Python's `dict[str, bool]`: a map whose keys remember the order they were first inserted in. */
module OrderedDict {

  /** The keys in insertion order, and the value of each key. */
  datatype Dict = Dict(keys: seq<string>, vals: map<string, bool>)

  ghost predicate Distinct(s: seq<string>)
  {
    forall i, j :: 0 <= i < j < |s| ==> s[i] != s[j]
  }

  /** Every key is listed exactly once, and only keys are listed. */
  ghost predicate Valid(d: Dict)
  {
    Distinct(d.keys) && (forall k :: k in d.vals <==> k in d.keys)
  }

  /** `{}` */
  function Empty(): (d: Dict)
    ensures Valid(d) && d.keys == [] && d.vals == map[]
  {
    Dict([], map[])
  }

  /** `d[k] = v`: a key already present keeps its position, a new key goes last. */
  function Put(d: Dict, k: string, v: bool): (r: Dict)
    requires Valid(d)
    ensures Valid(r)
    ensures r.vals == d.vals[k := v]
    ensures k in d.vals ==> r.keys == d.keys
    ensures k !in d.vals ==> r.keys == d.keys + [k]
  {
    if k in d.vals then Dict(d.keys, d.vals[k := v]) else Dict(d.keys + [k], d.vals[k := v])
  }

  /** The elements of `s` that are not in `ex`, in their order in `s`. */
  function Minus(s: seq<string>, ex: set<string>): (r: seq<string>)
    ensures forall x :: x in r <==> x in s && x !in ex
    ensures |r| <= |s|
  {
    if s == [] then []
    else
      assert s == s[..|s| - 1] + [s[|s| - 1]];
      if s[|s| - 1] in ex then Minus(s[..|s| - 1], ex) else Minus(s[..|s| - 1], ex) + [s[|s| - 1]]
  }

  /** `d` with the keys of `ex` taken out, the others in their order. */
  function Without(d: Dict, ex: set<string>): (r: Dict)
    requires Valid(d)
    ensures Valid(r)
    ensures r.vals == d.vals - ex
    ensures r.keys == Minus(d.keys, ex)
  {
    MinusDistinct(d.keys, ex);
    Dict(Minus(d.keys, ex), d.vals - ex)
  }

  /** `d.pop(k)` once the value has been read: the key leaves the order and the map. */
  function Remove(d: Dict, k: string): (r: Dict)
    requires Valid(d)
    ensures Valid(r) && r == Without(d, {k})
  {
    Without(d, {k})
  }

  lemma WithoutWithout(d: Dict, a: set<string>, b: set<string>)
    requires Valid(d)
    ensures Without(Without(d, a), b) == Without(d, a + b)
  {
    MinusMinus(d.keys, a, b);
    assert d.vals - a - b == d.vals - (a + b);
  }

  /** Taking out keys that are already gone changes nothing. */
  lemma WithoutGone(d: Dict, a: set<string>, b: set<string>)
    requires Valid(d)
    requires forall x :: x in b ==> x !in d.vals || x in a
    ensures Without(d, a + b) == Without(d, a)
  {
    WithoutWithout(d, a, b);
    MinusNone(Minus(d.keys, a), b);
    assert d.vals - a - b == d.vals - a;
  }

  lemma {:induction false} MinusDistinct(s: seq<string>, ex: set<string>)
    requires Distinct(s)
    ensures Distinct(Minus(s, ex))
  {
    if s != [] {
      var p := s[..|s| - 1];
      assert Distinct(p);
      MinusDistinct(p, ex);
    }
  }

  lemma {:induction false} MinusAppend(a: seq<string>, b: seq<string>, ex: set<string>)
    ensures Minus(a + b, ex) == Minus(a, ex) + Minus(b, ex)
    decreases |b|
  {
    if b == [] {
      assert a + b == a;
    } else {
      var b' := b[..|b| - 1];
      assert (a + b)[..|a + b| - 1] == a + b';
      MinusAppend(a, b', ex);
    }
  }

  /** Removing nothing that occurs changes nothing. */
  lemma {:induction false} MinusNone(s: seq<string>, ex: set<string>)
    requires forall x :: x in s ==> x !in ex
    ensures Minus(s, ex) == s
  {
    if s != [] {
      var p := s[..|s| - 1];
      assert s == p + [s[|s| - 1]];
      MinusNone(p, ex);
    }
  }

  /** Removing everything that occurs leaves nothing. */
  lemma MinusAll(s: seq<string>, ex: set<string>)
    requires forall x :: x in s ==> x in ex
    ensures Minus(s, ex) == []
  {
    if Minus(s, ex) != [] {
      assert Minus(s, ex)[0] in Minus(s, ex);
    }
  }

  lemma {:induction false} MinusMinus(s: seq<string>, a: set<string>, b: set<string>)
    ensures Minus(Minus(s, a), b) == Minus(s, a + b)
  {
    if s != [] {
      var p := s[..|s| - 1];
      MinusMinus(p, a, b);
      if s[|s| - 1] !in a {
        assert Minus(s, a)[..|Minus(s, a)| - 1] == Minus(p, a);
      }
    }
  }
}
