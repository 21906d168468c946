/** Sets of automaton states as sorted lists.  The ids are handed out from the newest
    state to the oldest, so "smaller id" reads "made later" on state indices. */
module RxStateSet {

  type States = seq<nat>

  ghost predicate Sorted(s: States) {
    forall i, j :: 0 <= i < j < |s| ==> s[i] > s[j]
  }

  ghost function Members(s: States): set<nat> {
    set q | q in s
  }

  /** `nfa_set_enjoin`. */
  function Enjoin(q: nat, s: States): States {
    if s == [] || q > s[0] then [q] + s
    else if q == s[0] then s
    else [s[0]] + Enjoin(q, s[1..])
  }

  /** `rx_superstate_eclosure_union`. */
  function Union(s: States, ecl: States): States
    decreases |s| + |ecl|
  {
    if ecl == [] then s
    else if s == [] then [ecl[0]] + Union(s, ecl[1..])
    else if s[0] == ecl[0] then Union(s, ecl[1..])
    else if s[0] > ecl[0] then [s[0]] + Union(s[1..], ecl)
    else [ecl[0]] + Union(s, ecl[1..])
  }

  /** `t` is the sorted list of the states of `a` and `b`. */
  ghost predicate Merged(t: States, a: States, b: States) {
    Sorted(t) && forall x :: x in t <==> x in a || x in b
  }

  lemma Tail(s: States)
    requires s != [] && Sorted(s)
    ensures Sorted(s[1..]) && (forall x :: x in s <==> x == s[0] || x in s[1..])
    ensures forall x :: x in s[1..] ==> s[0] > x
  {
    assert s == [s[0]] + s[1..];
  }

  lemma Front(q: nat, t: States)
    requires Sorted(t) && forall x :: x in t ==> q > x
    ensures Sorted([q] + t) && forall x :: x in [q] + t <==> x == q || x in t
  {
    var u := [q] + t;
    forall i, j | 0 <= i < j < |u| ensures u[i] > u[j] {
      assert u[j] == t[j - 1] && t[j - 1] in t;
    }
  }

  lemma EnjoinAdds(q: nat, s: States)
    requires Sorted(s)
    ensures Sorted(Enjoin(q, s))
    ensures Members(Enjoin(q, s)) == Members(s) + {q}
  {
    EnjoinMerges(q, s);
    assert forall x :: x in [q] <==> x == q;
  }

  lemma {:induction false} EnjoinMerges(q: nat, s: States)
    requires Sorted(s)
    ensures Merged(Enjoin(q, s), [q], s)
  {
    assert forall x :: x in [q] <==> x == q;
    if s == [] {
    } else {
      Tail(s);
      if q > s[0] {
        Front(q, s);
      } else if q < s[0] {
        EnjoinMerges(q, s[1..]);
        Front(s[0], Enjoin(q, s[1..]));
      }
    }
  }

  lemma {:induction false} UnionMerges(s: States, ecl: States)
    requires Sorted(s) && Sorted(ecl)
    ensures Merged(Union(s, ecl), s, ecl)
    decreases |s| + |ecl|
  {
    hide Sorted;
    if ecl != [] {
      Tail(ecl);
      if s == [] {
        UnionMerges(s, ecl[1..]);
        Front(ecl[0], Union(s, ecl[1..]));
      } else {
        Tail(s);
        if s[0] == ecl[0] {
          UnionMerges(s, ecl[1..]);
        } else if s[0] > ecl[0] {
          UnionMerges(s[1..], ecl);
          Front(s[0], Union(s[1..], ecl));
        } else {
          UnionMerges(s, ecl[1..]);
          Front(ecl[0], Union(s, ecl[1..]));
        }
      }
    }
  }

  /** The merge is set union and keeps the list sorted. */
  lemma UnionIsUnion(s: States, ecl: States)
    requires Sorted(s) && Sorted(ecl)
    ensures Sorted(Union(s, ecl)) && Members(Union(s, ecl)) == Members(s) + Members(ecl)
  {
    UnionMerges(s, ecl);
  }

  /** Two sorted lists of the same states are the same list, so a set has one
      superset structure. */
  lemma {:induction false} SortedUnique(s: States, t: States)
    requires Sorted(s) && Sorted(t) && Members(s) == Members(t)
    ensures s == t
    decreases |s|
  {
    assert forall x :: x in s <==> x in Members(s);
    assert forall x :: x in t <==> x in Members(t);
    assert t != [] ==> t[0] in t;
    if s != [] {
      assert s[0] in t;
      Tail(s);
      Tail(t);
      assert t[0] in s;
      assert s[0] == t[0];
      assert Members(s[1..]) == Members(s) - {s[0]};
      assert Members(t[1..]) == Members(t) - {t[0]};
      SortedUnique(s[1..], t[1..]);
    }
  }
}
