/** Types and arithmetic shared by every component. */
module Primitives {
  // Ids and principals are used only through equality and their total order, so the
  // naturals stand for them: MIN is 0, and a fresh id always exists.
  type Principal = nat
  type CanisterId = nat
  type ProjectId = nat
  type OrgId = nat
  type TeamId = nat
  type UserId = nat

  const U64_MAX: nat := 0xFFFF_FFFF_FFFF_FFFF
  const U32_MAX: nat := 0xFFFF_FFFF

  datatype Option<+T> = None | Some(value: T)

  // The source's `ApiResult`: a value, or an error whose text is not modelled.
  datatype Result<+T> = Ok(value: T) | Err

  function Min(a: int, b: int): int {
    if a <= b then a else b
  }

  // `u64::saturating_add` and `u64::saturating_sub`.
  function SaturatingAdd(a: nat, b: nat): nat {
    if a + b <= U64_MAX then a + b else U64_MAX
  }

  function SaturatingSub(a: nat, b: nat): nat {
    if b <= a then a - b else 0
  }

  ghost predicate NoDuplicates<T>(s: seq<T>) {
    forall i, j :: 0 <= i < j < |s| ==> s[i] != s[j]
  }

  function ToSet<T>(s: seq<T>): set<T> {
    set x | x in s
  }

  // Id generation: some id that is not in use yet.
  method FreshId(used: set<nat>) returns (id: nat)
    ensures id !in used
  {
    id := 0;
    ghost var passed := {};
    while id in used
      invariant forall x :: x in passed <==> 0 <= x < id
      invariant passed <= used && |passed| == id
      decreases |used| - id
    {
      passed := passed + {id};
      SubsetSize(passed, used);
      id := id + 1;
    }
  }

  lemma SubsetSize<T>(a: set<T>, b: set<T>)
    requires a <= b
    ensures |a| <= |b|
    ensures |a| == |b| ==> a == b
  {
    assert b == a + (b - a);
  }

  // Sum of `value` over a finite set of keys.
  ghost function Sum<K(!new)>(keys: set<K>, value: K -> nat): nat {
    if keys == {} then 0
    else
      var k :| k in keys;
      value(k) + Sum(keys - {k}, value)
  }

  lemma {:induction false} SumRemove<K(!new)>(keys: set<K>, value: K -> nat, k: K)
    requires k in keys
    ensures Sum(keys, value) == value(k) + Sum(keys - {k}, value)
    decreases |keys|
  {
    var c :| c in keys && Sum(keys, value) == value(c) + Sum(keys - {c}, value);
    if c != k {
      SumRemove(keys - {c}, value, k);
      SumRemove(keys - {k}, value, c);
      assert keys - {c} - {k} == keys - {k} - {c};
    }
  }

  lemma {:induction false} SumAgrees<K(!new)>(keys: set<K>, v: K -> nat, w: K -> nat)
    requires forall k :: k in keys ==> v(k) == w(k)
    ensures Sum(keys, v) == Sum(keys, w)
    decreases |keys|
  {
    if keys != {} {
      var k :| k in keys;
      SumRemove(keys, v, k);
      SumRemove(keys, w, k);
      SumAgrees(keys - {k}, v, w);
    }
  }

  // Something was put in place at some point, and not taken away at any later one.
  ghost predicate Standing(puts: seq<bool>, takes: seq<bool>)
    requires |puts| == |takes|
  {
    exists i :: 0 <= i < |puts| && puts[i] && forall j :: i < j < |takes| ==> !takes[j]
  }

  lemma NothingStands()
    ensures !Standing([], [])
  {
  }

  lemma StandingStep(puts: seq<bool>, takes: seq<bool>, put: bool, take: bool)
    requires |puts| == |takes|
    ensures Standing(puts + [put], takes + [take]) <==> put || (Standing(puts, takes) && !take)
  {
    var p, t := puts + [put], takes + [take];
    if put {
      assert p[|puts|];
    } else if Standing(puts, takes) && !take {
      var i :| 0 <= i < |puts| && puts[i] && forall j :: i < j < |takes| ==> !takes[j];
      assert p[i];
    }
    if Standing(p, t) && !put {
      var i :| 0 <= i < |p| && p[i] && forall j :: i < j < |t| ==> !t[j];
      assert puts[i] && !t[|takes|];
      assert forall j :: i < j < |takes| ==> takes[j] == t[j];
    }
  }
}
