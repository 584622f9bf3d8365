/** Order-preserving selection over sequences.

  `Select(s, f)` keeps, in order, the values that `f` picks out of the
  elements of `s`. The tally of the load tester is characterised field by
  field as such selections, and the lemmas here (concatenation, membership,
  permutation) are what the tally lemmas are built from.
 */
module Selection {
  import opened Options

  /** The zero- or one-element sequence an optional value contributes. */
  function Emit<T>(o: Option<T>): (r: seq<T>)
    ensures |r| <= 1
    ensures o.None? ==> r == []
    ensures o.Some? ==> r == [o.value]
  {
    match o
    case Some(v) => [v]
    case None => []
  }

  /** The values `f` picks out of `s`, in the order their elements occur. */
  function Select<A, B>(s: seq<A>, f: A -> Option<B>): (r: seq<B>)
    ensures |r| <= |s|
    decreases |s|
  {
    if s == [] then [] else Emit(f(s[0])) + Select(s[1..], f)
  }

  /** Selecting from a concatenation selects from each part in turn. */
  lemma {:induction false} SelectAppend<A, B>(s: seq<A>, t: seq<A>, f: A -> Option<B>)
    ensures Select(s + t, f) == Select(s, f) + Select(t, f)
    decreases |s|
  {
    if s == [] {
      assert s + t == t;
    } else {
      assert (s + t)[0] == s[0];
      assert (s + t)[1..] == s[1..] + t;
      SelectAppend(s[1..], t, f);
    }
  }

  /** Appending one element adds exactly what `f` picks from it. */
  lemma {:induction false} SelectSnoc<A, B>(s: seq<A>, x: A, f: A -> Option<B>)
    ensures Select(s + [x], f) == Select(s, f) + Emit(f(x))
  {
    SelectAppend(s, [x], f);
    assert [x][1..] == [];
  }

  /** Inserting an element that `f` does not pick changes nothing. */
  lemma {:induction false} SelectIgnores<A, B>(front: seq<A>, back: seq<A>, x: A, f: A -> Option<B>)
    requires f(x).None?
    ensures Select(front + [x] + back, f) == Select(front + back, f)
  {
    SelectAppend(front + [x], back, f);
    SelectSnoc(front, x, f);
    SelectAppend(front, back, f);
  }

  /** A value is selected exactly when some element yields it. */
  lemma {:induction false} SelectMember<A, B>(s: seq<A>, f: A -> Option<B>, b: B)
    ensures b in Select(s, f) <==> exists i :: 0 <= i < |s| && f(s[i]) == Some(b)
    decreases |s|
  {
    if s != [] {
      SelectMember(s[1..], f, b);
      if b in Select(s[1..], f) {
        var i :| 0 <= i < |s[1..]| && f(s[1..][i]) == Some(b);
        assert f(s[i + 1]) == Some(b);
      }
      if exists i :: 0 <= i < |s| && f(s[i]) == Some(b) {
        var i :| 0 <= i < |s| && f(s[i]) == Some(b);
        if i > 0 {
          assert f(s[1..][i - 1]) == Some(b);
        }
      }
    }
  }

  /** Every selected value comes from some element. */
  lemma {:induction false} SelectMemberAll<A, B>(s: seq<A>, f: A -> Option<B>)
    ensures forall b :: b in Select(s, f) ==> exists i :: 0 <= i < |s| && f(s[i]) == Some(b)
  {
    forall b | b in Select(s, f)
      ensures exists i :: 0 <= i < |s| && f(s[i]) == Some(b)
    {
      SelectMember(s, f, b);
    }
  }

  /** Selections from two permutations of one sequence are permutations of
      each other: the multiset of selected values depends only on the
      multiset of elements. */
  lemma {:induction false} SelectPermutation<A, B>(s: seq<A>, t: seq<A>, f: A -> Option<B>)
    requires multiset(s) == multiset(t)
    ensures multiset(Select(s, f)) == multiset(Select(t, f))
    decreases |s|
  {
    if s == [] {
      assert |t| == |multiset(t)| == 0;
    } else {
      var x := s[0];
      assert x in multiset(t);
      var i :| 0 <= i < |t| && t[i] == x;
      var before, after := t[..i], t[i + 1..];
      var rest := before + after;
      assert t == before + [x] + after;
      assert s == [x] + s[1..];
      calc {
        multiset(s[1..]);
        multiset(s) - multiset{x};
        multiset(t) - multiset{x};
        multiset(before) + multiset{x} + multiset(after) - multiset{x};
        multiset(rest);
      }
      SelectPermutation(s[1..], rest, f);
      SelectAppend(before + [x], after, f);
      SelectSnoc(before, x, f);
      SelectAppend(before, after, f);
    }
  }
}
