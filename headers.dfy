/** The pending header names of the parser live in a std::set<std::string>:
    a duplicate-free collection iterated in increasing std::string order.
    It is kept here as that ordered sequence of its elements. */
module HeaderSet {

  /** std::string operator<: lexicographic, a proper prefix first. */
  predicate Less(a: string, b: string)
    decreases |a|
  {
    if a == [] then b != []
    else if b == [] then false
    else if a[0] != b[0] then a[0] < b[0]
    else Less(a[1..], b[1..])
  }

  lemma {:induction false} LessIrreflexive(a: string)
    ensures !Less(a, a)
    decreases |a|
  {
    if a != [] {
      LessIrreflexive(a[1..]);
    }
  }

  lemma {:induction false} LessTransitive(a: string, b: string, c: string)
    requires Less(a, b) && Less(b, c)
    ensures Less(a, c)
    decreases |a|
  {
    if a != [] && b != [] && c != [] && a[0] == b[0] && b[0] == c[0] {
      LessTransitive(a[1..], b[1..], c[1..]);
    }
  }

  lemma {:induction false} LessTotal(a: string, b: string)
    requires a != b
    ensures Less(a, b) || Less(b, a)
    decreases |a|
  {
    if a != [] && b != [] && a[0] == b[0] {
      LessTotal(a[1..], b[1..]);
    }
  }

  /** The iteration order of a std::set<std::string>: strictly increasing. */
  predicate Ordered(hs: seq<string>) {
    forall i, j :: 0 <= i < j < |hs| ==> Less(hs[i], hs[j])
  }

  /** headers.insert(x): no effect when x is present, otherwise x goes to its
      place in the order. */
  function Insert(hs: seq<string>, x: string): (r: seq<string>)
    ensures forall y :: y in r <==> y in hs || y == x
    ensures x in hs ==> r == hs
    ensures x !in hs ==> |r| == |hs| + 1
  {
    if x in hs then hs else Place(hs, x)
  }

  /** x put in front of the first element it is less than. */
  function Place(hs: seq<string>, x: string): (r: seq<string>)
    ensures forall y :: y in r <==> y in hs || y == x
    ensures |r| == |hs| + 1
  {
    if hs == [] || Less(x, hs[0]) then [x] + hs else [hs[0]] + Place(hs[1..], x)
  }

  lemma {:induction false} PlaceOrdered(hs: seq<string>, x: string)
    requires Ordered(hs) && x !in hs
    ensures Ordered(Place(hs, x))
  {
    if hs == [] {
    } else if Less(x, hs[0]) {
      var r := [x] + hs;
      forall i, j | 0 <= i < j < |r| ensures Less(r[i], r[j]) {
        if i == 0 && j > 1 {
          LessTransitive(x, hs[0], hs[j - 1]);
        }
      }
    } else {
      LessTotal(x, hs[0]);
      assert Ordered(hs[1..]);
      PlaceOrdered(hs[1..], x);
      var t := Place(hs[1..], x);
      var r := [hs[0]] + t;
      forall i, j | 0 <= i < j < |r| ensures Less(r[i], r[j]) {
        if i == 0 {
          assert r[j] in t;
          assert r[j] in hs[1..] || r[j] == x;
        }
      }
    }
  }

  /** Inserting keeps the sequence ordered, so iteration stays in std::set
      order and every name occurs once. */
  lemma InsertOrdered(hs: seq<string>, x: string)
    requires Ordered(hs)
    ensures Ordered(Insert(hs, x))
  {
    if x !in hs {
      PlaceOrdered(hs, x);
    }
  }
}
