/**
 * The query string as the hooks see it: the list of name-value pairs of a
 * `URLSearchParams` object, with `get`, `set` and `delete` as section 6.2 of
 * the WHATWG URL Standard defines them. Serialisation to and from the
 * `a=b&c=d` text form is left out: the hooks copy a list and write it back.
 */
module SearchParams {
  import opened Options
  import opened Sequences

  type QueryString = seq<(string, string)>

  /** Some pair of `q` is named `name`. */
  predicate HasName(q: QueryString, name: string)
  {
    exists i :: 0 <= i < |q| && q[i].0 == name
  }

  /** `i` is the position of the first pair named `name`. */
  predicate FirstNamed(q: QueryString, name: string, i: int)
  {
    0 <= i < |q| && q[i].0 == name && forall k :: 0 <= k < i ==> q[k].0 != name
  }

  /** The number of pairs named `name`. */
  function CountName(q: QueryString, name: string): (n: nat)
    ensures n == 0 <==> !HasName(q, name)
  {
    if q == [] then 0
    else
      assert forall i :: 1 <= i < |q| ==> q[i] == q[1..][i - 1];
      (if q[0].0 == name then 1 else 0) + CountName(q[1..], name)
  }

  /** `get(name)`: the value of the first pair named `name`, or `null` when there is none. */
  function GetParam(q: QueryString, name: string): (r: Option<string>)
    ensures r.None? <==> !HasName(q, name)
    ensures r.Some? ==> (name, r.value) in q
  {
    if q == [] then None
    else if q[0].0 == name then Some(q[0].1)
    else
      assert forall i :: 1 <= i < |q| ==> q[i] == q[1..][i - 1];
      GetParam(q[1..], name)
  }

  /** `get(name)` returns the value of the first pair named `name`. */
  lemma {:induction false} GetReturnsFirst(q: QueryString, name: string, i: nat)
    requires FirstNamed(q, name, i)
    ensures GetParam(q, name) == Some(q[i].1)
  {
    if i > 0 {
      assert FirstNamed(q[1..], name, i - 1);
      GetReturnsFirst(q[1..], name, i - 1);
    }
  }

  /** `delete(name)`: removes every pair named `name`; the other pairs keep their order. */
  function DeleteParam(q: QueryString, name: string): (r: QueryString)
    ensures !HasName(r, name)
    ensures !HasName(q, name) ==> r == q
  {
    if q == [] then []
    else
      var rest := DeleteParam(q[1..], name);
      assert forall i :: 1 <= i < |q| ==> q[i] == q[1..][i - 1];
      if q[0].0 == name then rest
      else
        var r := [q[0]] + rest;
        assert forall i :: 1 <= i < |r| ==> r[i] == rest[i - 1];
        r
  }

  /**
   * `delete` keeps exactly the pairs with another name, each as often as
   * before and in their original order.
   */
  lemma DeleteKeepsPairs(q: QueryString, name: string, pair: (string, string))
    ensures pair in DeleteParam(q, name) <==> pair in q && pair.0 != name
    ensures multiset(DeleteParam(q, name))[pair] == if pair.0 != name then multiset(q)[pair] else 0
    ensures Subsequence(DeleteParam(q, name), q)
  {
    var other := (pr: (string, string)) => pr.0 != name;
    DeleteIsFilter(q, name);
    FilterMultiset(q, other, pair);
    FilterIsSubsequence(q, other);
  }

  /** `delete` is the filter that keeps the pairs with another name. */
  lemma {:induction false} DeleteIsFilter(q: QueryString, name: string)
    ensures DeleteParam(q, name) == Filter(q, (pr: (string, string)) => pr.0 != name)
  {
    if q != [] {
      DeleteIsFilter(q[1..], name);
    }
  }

  /** `delete` does not change what `get` returns for any other name. */
  lemma {:induction false} DeleteKeepsOthers(q: QueryString, name: string, other: string)
    requires other != name
    ensures GetParam(DeleteParam(q, name), other) == GetParam(q, other)
  {
    if q != [] {
      DeleteKeepsOthers(q[1..], name, other);
    }
  }

  /**
   * `set(name, value)`: if some pair is named `name`, the first such pair takes
   * `value` and the others named `name` are removed; otherwise the pair is
   * appended. Either way exactly one pair is named `name`, it is what `get`
   * returns, and removing it leaves what removing `name` from the input leaves:
   * every other pair is kept, in order.
   */
  function SetParam(q: QueryString, name: string, value: string): (r: QueryString)
    ensures GetParam(r, name) == Some(value)
    ensures DeleteParam(r, name) == DeleteParam(q, name)
  {
    if q == [] then [(name, value)]
    else if q[0].0 == name then
      var rest := DeleteParam(q[1..], name);
      assert ([(name, value)] + rest)[1..] == rest;
      [(name, value)] + rest
    else
      var rest := SetParam(q[1..], name, value);
      assert ([q[0]] + rest)[1..] == rest;
      [q[0]] + rest
  }

  /** After `set` exactly one pair has the name. */
  lemma {:induction false} SetLeavesOnePair(q: QueryString, name: string, value: string)
    ensures CountName(SetParam(q, name, value), name) == 1
  {
    var r := SetParam(q, name, value);
    if q == [] {
      assert r[1..] == [];
    } else if q[0].0 == name {
      assert r[1..] == DeleteParam(q[1..], name);
    } else {
      SetLeavesOnePair(q[1..], name, value);
      SetPassesHead(q, name, value);
      assert r[1..] == SetParam(q[1..], name, value);
    }
  }

  /** `set` of a name the list does not have appends the pair at the end. */
  lemma {:induction false} SetAppendsNew(q: QueryString, name: string, value: string)
    requires !HasName(q, name)
    ensures SetParam(q, name, value) == q + [(name, value)]
  {
    if q != [] {
      NoNameInTail(q, name);
      SetAppendsNew(q[1..], name, value);
      SetPassesHead(q, name, value);
      AppendPastHead(q, (name, value));
    }
  }

  lemma AppendPastHead<T>(q: seq<T>, x: T)
    requires q != []
    ensures q + [x] == [q[0]] + (q[1..] + [x])
  {
    assert q == [q[0]] + q[1..];
  }

  lemma NoNameInTail(q: QueryString, name: string)
    requires q != [] && !HasName(q, name)
    ensures q[0].0 != name && !HasName(q[1..], name)
  {
    forall i | 0 <= i < |q| - 1
      ensures q[1..][i].0 != name
    {
      assert q[1..][i] == q[i + 1];
    }
  }

  lemma SetPassesHead(q: QueryString, name: string, value: string)
    requires q != [] && q[0].0 != name
    ensures SetParam(q, name, value) == [q[0]] + SetParam(q[1..], name, value)
  {
  }

  /** `set` on a list that has `name`: the first pair named `name` takes the value in place, later ones go. */
  lemma {:induction false} SetReplacesFirst(q: QueryString, name: string, value: string, i: nat)
    requires FirstNamed(q, name, i)
    ensures SetParam(q, name, value) == q[..i] + [(name, value)] + DeleteParam(q[i + 1..], name)
  {
    if i == 0 {
      SetReplacesHead(q, name, value);
    } else {
      var tail := q[1..];
      FirstNamedInTail(q, name, i);
      SetReplacesFirst(tail, name, value, i - 1);
      SetPassesHead(q, name, value);
      Splice(q, SetParam(q, name, value), SetParam(tail, name, value),
        DeleteParam(tail[i - 1 + 1..], name), DeleteParam(q[i + 1..], name), (name, value), i);
    }
  }

  lemma SetReplacesHead(q: QueryString, name: string, value: string)
    requires q != [] && q[0].0 == name
    ensures SetParam(q, name, value) == q[..0] + [(name, value)] + DeleteParam(q[0 + 1..], name)
  {
    assert q[..0] == [] && q[1..] == q[0 + 1..];
  }

  lemma FirstNamedInTail(q: QueryString, name: string, i: nat)
    requires FirstNamed(q, name, i) && i > 0
    ensures q[0].0 != name && FirstNamed(q[1..], name, i - 1)
  {
    forall k | 0 <= k < i - 1
      ensures q[1..][k].0 != name
    {
      assert q[1..][k] == q[k + 1];
    }
  }

  lemma Splice<T>(q: seq<T>, s: seq<T>, s1: seq<T>, d1: seq<T>, d2: seq<T>, m: T, i: nat)
    requires 0 < i < |q|
    requires s == [q[0]] + s1
    requires s1 == q[1..][..i - 1] + [m] + d1
    requires q[1..][i..] == q[i + 1..] ==> d1 == d2
    ensures s == q[..i] + [m] + d2
  {
    assert q[..i] == [q[0]] + q[1..][..i - 1];
    assert q[i + 1..] == q[1..][i..];
  }

  /** `set` does not change what `get` returns for any other name. */
  lemma SetKeepsOthers(q: QueryString, name: string, value: string, other: string)
    requires other != name
    ensures GetParam(SetParam(q, name, value), other) == GetParam(q, other)
  {
    DeleteKeepsOthers(SetParam(q, name, value), name, other);
    DeleteKeepsOthers(q, name, other);
  }

  /** A `URLSearchParams` object: its list of pairs is edited in place. */
  class UrlSearchParams {
    var list: QueryString

    /** `new URLSearchParams(init)`, the list copied from `init`. */
    constructor (init: QueryString)
      ensures list == init
    {
      list := init;
    }

    method Set(name: string, value: string)
      modifies this
      ensures list == SetParam(old(list), name, value)
    {
      list := SetParam(list, name, value);
    }

    method Delete(name: string)
      modifies this
      ensures list == DeleteParam(old(list), name)
    {
      list := DeleteParam(list, name);
    }
  }
}
