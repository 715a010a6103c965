/** The keyword list made from the text-generation reply:
    `sorted(set(word.strip() for word in reply.split(',')))`. */
module Keywords {
  import opened Text

  // ---------------------------------------------------------------- Python's order on str

  /** Python's `a < b` on str: lexicographic by code point, a proper prefix first. */
  predicate Less(a: string, b: string)
    decreases |a|
  {
    if a == [] then b != []
    else b != [] && (a[0] < b[0] || (a[0] == b[0] && Less(a[1..], b[1..])))
  }

  lemma {:induction false} LessIrreflexive(a: string)
    ensures !Less(a, a)
    decreases |a|
  {
    if a != [] {
      LessIrreflexive(a[1..]);
    }
  }

  lemma {:induction false} LessTransitive(a: string, b: string, c: string)
    ensures Less(a, b) && Less(b, c) ==> Less(a, c)
    decreases |a|
  {
    if a != [] && b != [] && c != [] && a[0] == b[0] && b[0] == c[0] {
      LessTransitive(a[1..], b[1..], c[1..]);
    }
  }

  lemma {:induction false} LessTotal(a: string, b: string)
    ensures a == b || Less(a, b) || Less(b, a)
    decreases |a|
  {
    if a != [] && b != [] && a[0] == b[0] {
      LessTotal(a[1..], b[1..]);
      if a[1..] == b[1..] {
        assert a == [a[0]] + a[1..] && b == [b[0]] + b[1..];
      }
    }
  }

  lemma LessAsymmetric(a: string, b: string)
    ensures !(Less(a, b) && Less(b, a))
  {
    LessTransitive(a, b, a);
    LessIrreflexive(a);
  }

  // ---------------------------------------------------------------- sorted(set(...))

  /** Strictly increasing, hence free of duplicates. */
  predicate Increasing(xs: seq<string>) {
    forall i, j :: 0 <= i < j < |xs| ==> Less(xs[i], xs[j])
  }

  function Elems(xs: seq<string>): set<string> {
    set x | x in xs
  }

  /** Insert `x` into a strictly increasing list unless it is already there. */
  function Insert(x: string, xs: seq<string>): seq<string>
    decreases |xs|
  {
    if xs == [] then [x]
    else if x == xs[0] then xs
    else if Less(x, xs[0]) then [x] + xs
    else [xs[0]] + Insert(x, xs[1..])
  }

  /** Inserting adds `x` to the elements and nothing else. */
  lemma {:induction false} InsertElems(x: string, xs: seq<string>)
    ensures Elems(Insert(x, xs)) == Elems(xs) + {x}
    decreases |xs|
  {
    if xs != [] && x != xs[0] && !Less(x, xs[0]) {
      InsertElems(x, xs[1..]);
      var r := Insert(x, xs[1..]);
      assert Elems([xs[0]] + r) == {xs[0]} + Elems(r);
      assert xs == [xs[0]] + xs[1..];
      assert Elems(xs) == {xs[0]} + Elems(xs[1..]);
    }
  }

  /** Inserting into an increasing list keeps it increasing. */
  lemma {:induction false} InsertSpec(x: string, xs: seq<string>)
    requires Increasing(xs)
    ensures Increasing(Insert(x, xs))
    ensures Elems(Insert(x, xs)) == Elems(xs) + {x}
    decreases |xs|
  {
    InsertElems(x, xs);
    if xs != [] && x != xs[0] {
      LessTotal(x, xs[0]);
      if Less(x, xs[0]) {
        forall j | 0 < j < |xs|
          ensures Less(x, xs[j])
        {
          LessTransitive(x, xs[0], xs[j]);
        }
      } else {
        var r := Insert(x, xs[1..]);
        InsertSpec(x, xs[1..]);
        forall j | 0 <= j < |r|
          ensures Less(xs[0], r[j])
        {
          assert r[j] in Elems(r);
        }
      }
    }
  }

  /** `sorted(set(xs))`: the distinct elements of `xs` in increasing order. */
  function SortedSet(xs: seq<string>): seq<string>
    decreases |xs|
  {
    if xs == [] then [] else Insert(xs[0], SortedSet(xs[1..]))
  }

  lemma {:induction false} SortedSetSpec(xs: seq<string>)
    ensures Increasing(SortedSet(xs))
    ensures Elems(SortedSet(xs)) == Elems(xs)
    decreases |xs|
  {
    if xs != [] {
      SortedSetSpec(xs[1..]);
      InsertSpec(xs[0], SortedSet(xs[1..]));
      assert xs == [xs[0]] + xs[1..];
    }
  }

  /** The head of an increasing list is below every other element. */
  lemma HeadIsLeast(xs: seq<string>)
    requires Increasing(xs) && xs != []
    ensures forall y :: y in Elems(xs) ==> y == xs[0] || Less(xs[0], y)
  {
  }

  /** A set of strings has exactly one strictly increasing arrangement. */
  lemma {:induction false} IncreasingUnique(xs: seq<string>, ys: seq<string>)
    requires Increasing(xs) && Increasing(ys) && Elems(xs) == Elems(ys)
    ensures xs == ys
    decreases |xs|
  {
    assert ys != [] ==> ys[0] in Elems(ys);
    if xs != [] {
      assert xs[0] in Elems(ys) && ys[0] in Elems(xs);
      HeadIsLeast(xs);
      HeadIsLeast(ys);
      LessAsymmetric(xs[0], ys[0]);
      LessIrreflexive(xs[0]);
      forall j | 0 < j < |xs| ensures xs[j] != xs[0] {
        LessIrreflexive(xs[0]);
      }
      forall j | 0 < j < |ys| ensures ys[j] != ys[0] {
        LessIrreflexive(ys[0]);
      }
      assert xs == [xs[0]] + xs[1..] && ys == [ys[0]] + ys[1..];
      assert Elems(xs[1..]) == Elems(xs) - {xs[0]};
      assert Elems(ys[1..]) == Elems(ys) - {ys[0]};
      IncreasingUnique(xs[1..], ys[1..]);
    }
  }

  // ---------------------------------------------------------------- the canonical keyword list

  /** `[word.strip() for word in parts]` */
  function StripAll(parts: seq<string>): (r: seq<string>)
    ensures |r| == |parts|
  {
    seq(|parts|, i requires 0 <= i < |parts| => Strip(parts[i]))
  }

  /** `split_string_into_list(reply)`: the comma-separated fields of the reply, stripped. */
  function Tokens(reply: string): seq<string> {
    StripAll(Split(reply, ','))
  }

  /** `sorted(set(split_string_into_list(reply)))`. */
  function Canonical(reply: string): seq<string> {
    SortedSet(Tokens(reply))
  }

  /** Every stripped field is stripped and free of commas. */
  lemma TokensSpec(reply: string)
    ensures |Tokens(reply)| >= 1
    ensures forall x :: x in Elems(Tokens(reply)) ==> IsStripped(x) && ',' !in x
  {
    var parts := Split(reply, ',');
    forall j | 0 <= j < |parts|
      ensures IsStripped(Tokens(reply)[j]) && ',' !in Tokens(reply)[j]
    {
      StripSpec(parts[j]);
      StripKeeps(parts[j]);
    }
  }

  /** The canonical list is strictly increasing, holds exactly the stripped fields of the reply
      (an empty field survives as ""), and each entry is stripped and free of commas. */
  lemma CanonicalSpec(reply: string)
    ensures Increasing(Canonical(reply))
    ensures Elems(Canonical(reply)) == Elems(Tokens(reply))
    ensures |Canonical(reply)| >= 1
    ensures forall i :: 0 <= i < |Canonical(reply)| ==>
              IsStripped(Canonical(reply)[i]) && ',' !in Canonical(reply)[i]
  {
    var r := Canonical(reply);
    SortedSetSpec(Tokens(reply));
    TokensSpec(reply);
    assert Tokens(reply)[0] in Elems(r);
    assert forall i :: 0 <= i < |r| ==> r[i] in Elems(Tokens(reply));
  }

  /** Canonicalising depends only on the set of stripped fields, not on their order or repetition. */
  lemma CanonicalIgnoresOrder(reply1: string, reply2: string)
    requires Elems(Tokens(reply1)) == Elems(Tokens(reply2))
    ensures Canonical(reply1) == Canonical(reply2)
  {
    CanonicalSpec(reply1);
    CanonicalSpec(reply2);
    IncreasingUnique(Canonical(reply1), Canonical(reply2));
  }

  /** Canonicalising `",".join(result)` gives `result` back. */
  lemma CanonicalIdempotent(reply: string)
    ensures Canonical(JoinWith(Canonical(reply), ",")) == Canonical(reply)
  {
    var r := Canonical(reply);
    CanonicalSpec(reply);
    SplitJoin(r, ',');
    assert Tokens(JoinWith(r, ",")) == r by {
      forall i | 0 <= i < |r| ensures Strip(r[i]) == r[i] {
        StripStripped(r[i]);
      }
    }
    SortedSetSpec(r);
    IncreasingUnique(SortedSet(r), r);
  }
}
