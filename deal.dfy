/** The dealer: build the 24-card deck, shuffle it in place, deal two hands of
    ten and sort each hand, splicing the special cards in at random places.
    Every draw of the platform's random number generator is a caller-supplied
    real in [0, 1). */
module Deal {
  import opened Cards

  const DeckSize: nat := 24
  const HandSize: nat := 10

  // ---------------------------------------------------------------
  // Random draws
  // ---------------------------------------------------------------

  /** Draws of a random number generator: every one lies in [0, 1). */
  predicate RandomDraws(rs: seq<real>)
  {
    forall k | 0 <= k < |rs| :: 0.0 <= rs[k] < 1.0
  }

  lemma ScaleBelow(r: real, n: nat)
    requires 0.0 <= r < 1.0
    ensures 0.0 <= r * n as real
    ensures n > 0 ==> r * n as real < n as real
  {
    if n > 0 {
      assert (1.0 - r) * n as real > 0.0;
    }
  }

  /** floor(r * n): a uniformly drawn index below `n`. */
  function RandomIndex(r: real, n: nat): (k: nat)
    requires 0.0 <= r < 1.0 && n > 0
    ensures k < n
  {
    ScaleBelow(r, n);
    (r * n as real).Floor
  }

  /** round(r * n), rounding halves up: an insertion point in 0..n. */
  function RandomInsertPoint(r: real, n: nat): (k: nat)
    requires 0.0 <= r < 1.0
    ensures k <= n
  {
    ScaleBelow(r, n);
    (r * n as real + 0.5).Floor
  }

  // ---------------------------------------------------------------
  // The deck
  // ---------------------------------------------------------------

  predicate Distinct(s: seq<Card>)
  {
    forall i, j | 0 <= i < j < |s| :: s[i] != s[j]
  }

  /** The twelve values in black, then the twelve values in white, all hidden. */
  function Deck(): (d: seq<Card>)
    ensures |d| == DeckSize
  {
    seq(12, i => Card(i + 1, Black, 0)) + seq(12, i => Card(i + 1, White, 0))
  }

  /** The deck is built from the keys of the face-text table: it holds every
      hidden card whose value has a face text, in each colour, once. */
  lemma DeckContents(c: Card)
    ensures c in Deck() <==> Display(c.value).Some? && c.show == 0
    ensures c in Deck() <==> MinValue <= c.value <= MaxValue && c.show == 0
    ensures Distinct(Deck())
  {
    var d := Deck();
    if MinValue <= c.value <= MaxValue && c.show == 0 {
      if c.color == Black {
        assert d[c.value - 1] == c;
      } else {
        assert d[12 + c.value - 1] == c;
      }
    }
  }

  // ---------------------------------------------------------------
  // Shuffle
  // ---------------------------------------------------------------

  function Swap(s: seq<Card>, i: nat, j: nat): (r: seq<Card>)
    requires i < |s| && j < |s|
    ensures |r| == |s|
  {
    s[i := s[j]][j := s[i]]
  }

  lemma SwapPermutes(s: seq<Card>, i: nat, j: nat)
    requires i < |s| && j < |s|
    ensures multiset(Swap(s, i, j)) == multiset(s)
  {
  }

  /** The shuffle with `c` positions still to fill: the last unfilled position
      swaps with a position drawn below it, and `rs[|s| - c]` is that draw. */
  function ShuffleFrom(s: seq<Card>, rs: seq<real>, c: nat): (r: seq<Card>)
    requires c <= |s| == |rs| && RandomDraws(rs)
    ensures |r| == |s|
    decreases c
  {
    if c == 0 then s
    else ShuffleFrom(Swap(s, c - 1, RandomIndex(rs[|s| - c], c)), rs, c - 1)
  }

  lemma {:induction false} ShufflePermutes(s: seq<Card>, rs: seq<real>, c: nat)
    requires c <= |s| == |rs| && RandomDraws(rs)
    ensures |ShuffleFrom(s, rs, c)| == |s|
    ensures multiset(ShuffleFrom(s, rs, c)) == multiset(s)
    decreases c
  {
    if c > 0 {
      var t := Swap(s, c - 1, RandomIndex(rs[|s| - c], c));
      SwapPermutes(s, c - 1, RandomIndex(rs[|s| - c], c));
      ShufflePermutes(t, rs, c - 1);
    }
  }

  /** Fisher-Yates in place: one draw per position, from the top down. */
  method Shuffle(a: array<Card>, rs: seq<real>)
    requires |rs| == a.Length && RandomDraws(rs)
    modifies a
    ensures a[..] == ShuffleFrom(old(a[..]), rs, a.Length)
    ensures multiset(a[..]) == multiset(old(a[..]))
  {
    var current := a.Length;
    while current != 0
      invariant 0 <= current <= a.Length
      invariant ShuffleFrom(a[..], rs, current) == ShuffleFrom(old(a[..]), rs, a.Length)
    {
      ghost var before := a[..];
      var pick := RandomIndex(rs[a.Length - current], current);
      current := current - 1;
      a[current], a[pick] := a[pick], a[current];
      assert a[..] == Swap(before, current, pick);
    }
    ShufflePermutes(old(a[..]), rs, a.Length);
  }

  // ---------------------------------------------------------------
  // Sorting a hand
  // ---------------------------------------------------------------

  predicate IsSpecial(c: Card)
  {
    c.value == SpecialCard
  }

  /** The cards of `s` that are not special, in their order. */
  function Normals(s: seq<Card>): seq<Card>
  {
    if s == [] then []
    else (if IsSpecial(s[0]) then [] else [s[0]]) + Normals(s[1..])
  }

  /** The special cards of `s`, in their order. */
  function Specials(s: seq<Card>): seq<Card>
  {
    if s == [] then []
    else (if IsSpecial(s[0]) then [s[0]] else []) + Specials(s[1..])
  }

  lemma {:induction false} SplitPermutes(s: seq<Card>)
    ensures multiset(Normals(s)) + multiset(Specials(s)) == multiset(s)
  {
    if s != [] {
      SplitPermutes(s[1..]);
      assert s == [s[0]] + s[1..];
      if IsSpecial(s[0]) {
        assert Normals(s) == Normals(s[1..]);
        assert Specials(s) == [s[0]] + Specials(s[1..]);
      } else {
        assert Normals(s) == [s[0]] + Normals(s[1..]);
        assert Specials(s) == Specials(s[1..]);
      }
    }
  }

  /** A hand has no more special cards than cards. */
  lemma SpecialsAtMost(s: seq<Card>)
    ensures |Specials(s)| <= |s|
  {
    SplitPermutes(s);
    assert |multiset(Specials(s))| <= |multiset(s)|;
  }

  lemma {:induction false} NormalsAppend(a: seq<Card>, b: seq<Card>)
    ensures Normals(a + b) == Normals(a) + Normals(b)
  {
    if a == [] {
      assert a + b == b;
    } else {
      assert (a + b)[0] == a[0];
      assert (a + b)[1..] == a[1..] + b;
      NormalsAppend(a[1..], b);
    }
  }

  lemma {:induction false} NormalsOfNormal(s: seq<Card>)
    requires forall c | c in s :: !IsSpecial(c)
    ensures Normals(s) == s
  {
    if s != [] {
      NormalsOfNormal(s[1..]);
    }
  }

  lemma {:induction false} SplitKinds(s: seq<Card>)
    ensures forall c | c in Normals(s) :: !IsSpecial(c)
    ensures forall c | c in Specials(s) :: IsSpecial(c)
  {
    if s != [] {
      SplitKinds(s[1..]);
    }
  }

  /** Splicing a special card in anywhere leaves the normal cards as they were
      and adds the card to the hand. */
  lemma SpliceSpecial(s: seq<Card>, i: nat, c: Card)
    requires i <= |s| && IsSpecial(c)
    ensures Normals(s[..i] + [c] + s[i..]) == Normals(s)
  {
    var front, back := s[..i], s[i..];
    assert front + back == s;
    NormalsAppend(front + [c], back);
    AppendSpecial(front, c);
    NormalsAppend(front, back);
  }

  lemma AppendSpecial(s: seq<Card>, c: Card)
    requires IsSpecial(c)
    ensures Normals(s + [c]) == Normals(s)
  {
    NormalsAppend(s, [c]);
    assert [c][1..] == [];
    assert Normals(s) + [] == Normals(s);
  }

  /** Inserting into an ordered sequence in front of the first card not below `x`. */
  function InsertByRank(x: Card, s: seq<Card>): (r: seq<Card>)
    requires Ordered(s)
    ensures Ordered(r)
    ensures multiset(r) == multiset(s) + multiset{x}
  {
    if s == [] then [x]
    else if Le(x, s[0]) then [x] + s
    else
      var t := InsertByRank(x, s[1..]);
      assert s == [s[0]] + s[1..];
      assert forall c | c in multiset(t) :: Le(s[0], c);
      [s[0]] + t
  }

  /** The order the dealer's comparator sorts normal cards into. */
  function SortByRank(s: seq<Card>): (r: seq<Card>)
    ensures Ordered(r)
    ensures multiset(r) == multiset(s)
  {
    if s == [] then []
    else
      assert s == [s[0]] + s[1..];
      InsertByRank(s[0], SortByRank(s[1..]))
  }

  lemma SpliceMultiset(s: seq<Card>, i: nat, c: Card)
    requires i <= |s|
    ensures multiset(s[..i] + [c] + s[i..]) == multiset(s) + multiset{c}
  {
    assert s == s[..i] + s[i..];
  }

  /** The draws that remain after the first `k`. */
  lemma DrawsFrom(rs: seq<real>, k: nat)
    requires RandomDraws(rs) && k <= |rs|
    ensures RandomDraws(rs[k..])
  {
    forall i | 0 <= i < |rs[k..]| ensures 0.0 <= rs[k..][i] < 1.0 {
      assert rs[k..][i] == rs[k + i];
    }
  }

  /** The specification of the splicing loop: the special cards go in one at
      a time, in their order, each at round(r * n) of the n cards placed so
      far, with `r` the next draw. */
  function Spliced(r: seq<Card>, specials: seq<Card>, rs: seq<real>): seq<Card>
    requires RandomDraws(rs) && |rs| >= |specials|
    decreases |specials|
  {
    if specials == [] then r
    else
      var at := RandomInsertPoint(rs[0], |r|);
      Spliced(r[..at] + [specials[0]] + r[at..], specials[1..], rs[1..])
  }

  /** Splicing special cards in keeps the normal cards in their order and adds
      exactly the special cards. */
  lemma {:induction false} SplicedKeeps(r: seq<Card>, specials: seq<Card>, rs: seq<real>)
    requires RandomDraws(rs) && |rs| >= |specials|
    requires forall c | c in specials :: IsSpecial(c)
    ensures Normals(Spliced(r, specials, rs)) == Normals(r)
    ensures multiset(Spliced(r, specials, rs)) == multiset(r) + multiset(specials)
    decreases |specials|
  {
    if specials != [] {
      var at := RandomInsertPoint(rs[0], |r|);
      var next := r[..at] + [specials[0]] + r[at..];
      assert specials[0] in specials;
      SpliceSpecial(r, at, specials[0]);
      SpliceMultiset(r, at, specials[0]);
      DrawsFrom(rs, 1);
      forall c | c in specials[1..] ensures IsSpecial(c) {
        assert c in specials;
      }
      SplicedKeeps(next, specials[1..], rs[1..]);
      assert specials == [specials[0]] + specials[1..];
    }
  }

  /** The splicing loop of the hand sort: each special card, in turn, goes in
      at round(r * n) of the n cards placed so far. */
  method SpliceSpecials(sorted: seq<Card>, specials: seq<Card>, rs: seq<real>) returns (r: seq<Card>)
    requires forall c | c in sorted :: !IsSpecial(c)
    requires forall c | c in specials :: IsSpecial(c)
    requires RandomDraws(rs) && |rs| >= |specials|
    ensures r == Spliced(sorted, specials, rs)
    ensures Normals(r) == sorted
    ensures multiset(r) == multiset(sorted) + multiset(specials)
  {
    r := sorted;
    var k := 0;
    while k < |specials|
      invariant 0 <= k <= |specials|
      invariant RandomDraws(rs[k..])
      invariant Spliced(r, specials[k..], rs[k..]) == Spliced(sorted, specials, rs)
    {
      var at := RandomInsertPoint(rs[k], |r|);
      assert specials[k..][0] == specials[k] && specials[k..][1..] == specials[k + 1..];
      assert rs[k..][0] == rs[k] && rs[k..][1..] == rs[k + 1..];
      r := r[..at] + [specials[k]] + r[at..];
      k := k + 1;
    }
    assert specials[k..] == [];
    NormalsOfNormal(sorted);
    SplicedKeeps(sorted, specials, rs);
  }

  /** The hand `_sort` returns: the normal cards sorted, then the special
      cards spliced in with the draws `rs`. */
  function SortedHand(cards: seq<Card>, rs: seq<real>): seq<Card>
    requires RandomDraws(rs) && |rs| >= |Specials(cards)|
  {
    Spliced(SortByRank(Normals(cards)), Specials(cards), rs)
  }

  /** A sorted hand keeps the hand's cards and orders its normal cards. */
  lemma SortedHandSound(cards: seq<Card>, rs: seq<real>)
    requires RandomDraws(rs) && |rs| >= |Specials(cards)|
    ensures |SortedHand(cards, rs)| == |cards|
    ensures multiset(SortedHand(cards, rs)) == multiset(cards)
    ensures Normals(SortedHand(cards, rs)) == SortByRank(Normals(cards))
    ensures Ordered(Normals(SortedHand(cards, rs)))
  {
    var sorted := SortByRank(Normals(cards));
    SplitKinds(cards);
    forall c | c in sorted ensures !IsSpecial(c) {
      assert c in multiset(sorted);
    }
    NormalsOfNormal(sorted);
    SplicedKeeps(sorted, Specials(cards), rs);
    SplitPermutes(cards);
    assert |SortedHand(cards, rs)| == |multiset(SortedHand(cards, rs))| == |multiset(cards)|;
  }

  /** A hand's sort: the normal cards ordered by value (white before black at
      equal value), then the special cards spliced in at random points. */
  method SortHand(cards: seq<Card>, rs: seq<real>) returns (r: seq<Card>)
    requires RandomDraws(rs) && |rs| >= |Specials(cards)|
    ensures r == SortedHand(cards, rs)
  {
    var sorted := SortByRank(Normals(cards));
    SplitKinds(cards);
    forall c | c in sorted ensures !IsSpecial(c) {
      assert c in multiset(sorted);
    }
    r := SpliceSpecials(sorted, Specials(cards), rs);
  }

  // ---------------------------------------------------------------
  // Dealing
  // ---------------------------------------------------------------

  lemma {:induction false} DistinctCount(s: seq<Card>, x: Card)
    requires Distinct(s)
    ensures multiset(s)[x] <= 1
  {
    if s != [] {
      assert s == [s[0]] + s[1..];
      assert Distinct(s[1..]) by {
        forall i, j | 0 <= i < j < |s[1..]| ensures s[1..][i] != s[1..][j] {
          assert s[1..][i] == s[i + 1] && s[1..][j] == s[j + 1];
        }
      }
      DistinctCount(s[1..], x);
      if s[0] == x {
        assert x !in s[1..] by {
          forall j | 0 <= j < |s[1..]| ensures s[1..][j] != x {
            assert s[1..][j] == s[j + 1];
          }
        }
      }
    }
  }

  /** A rearrangement of a sequence without repeats has no repeats. */
  lemma PermutationDistinct(s: seq<Card>, t: seq<Card>)
    requires multiset(s) == multiset(t) && Distinct(t)
    ensures Distinct(s)
  {
    forall i, j | 0 <= i < j < |s| ensures s[i] != s[j] {
      if s[i] == s[j] {
        assert s == s[..j] + [s[j]] + s[j + 1..];
        assert s[i] in s[..j];
        assert multiset(s)[s[i]] >= 2;
        DistinctCount(t, s[i]);
      }
    }
  }

  /** What any rearrangement of the deck deals: two hands of ten deck cards
      sharing no card, and four cards left over. */
  lemma DealSlices(d: seq<Card>)
    requires multiset(d) == multiset(Deck())
    ensures |d| == DeckSize && |d[20..]| == 4
    ensures multiset(d[..HandSize]) !! multiset(d[HandSize..2 * HandSize])
    ensures multiset(d[..HandSize]) + multiset(d[HandSize..2 * HandSize]) <= multiset(Deck())
  {
    assert |d| == |multiset(d)| == |multiset(Deck())| == DeckSize;
    DeckContents(Card(0, Black, 0));
    PermutationDistinct(d, Deck());
    var a, b := d[..HandSize], d[HandSize..2 * HandSize];
    assert d == a + b + d[20..];
    forall x | x in multiset(a) ensures x !in multiset(b) {
      var i :| 0 <= i < |a| && a[i] == x;
      assert d[i] == x;
    }
  }

  /** The deal of main.js as a function of the draws: the deck shuffled with
      `rs`, then its slices [0, 10) and [10, 20) each sorted, the first
      hand's special cards placed with `rs1` and the second's with `rs2`. */
  function DealtHands(rs: seq<real>, rs1: seq<real>, rs2: seq<real>): (seq<Card>, seq<Card>)
    requires RandomDraws(rs) && |rs| == DeckSize
    requires RandomDraws(rs1) && |rs1| >= HandSize
    requires RandomDraws(rs2) && |rs2| >= HandSize
  {
    var d := ShuffleFrom(Deck(), rs, |rs|);
    SpecialsAtMost(d[..HandSize]);
    SpecialsAtMost(d[HandSize..2 * HandSize]);
    (SortedHand(d[..HandSize], rs1), SortedHand(d[HandSize..2 * HandSize], rs2))
  }

  /** Whatever the draws, the deal gives two hands of ten whose normal cards
      are ordered, which share no card and which both come from the deck. */
  lemma DealtHandsSound(rs: seq<real>, rs1: seq<real>, rs2: seq<real>)
    requires RandomDraws(rs) && |rs| == DeckSize
    requires RandomDraws(rs1) && |rs1| >= HandSize
    requires RandomDraws(rs2) && |rs2| >= HandSize
    ensures |DealtHands(rs, rs1, rs2).0| == HandSize && |DealtHands(rs, rs1, rs2).1| == HandSize
    ensures Ordered(Normals(DealtHands(rs, rs1, rs2).0)) && Ordered(Normals(DealtHands(rs, rs1, rs2).1))
    ensures multiset(DealtHands(rs, rs1, rs2).0) !! multiset(DealtHands(rs, rs1, rs2).1)
    ensures multiset(DealtHands(rs, rs1, rs2).0) + multiset(DealtHands(rs, rs1, rs2).1) <= multiset(Deck())
    ensures var d := ShuffleFrom(Deck(), rs, DeckSize);
      multiset(DealtHands(rs, rs1, rs2).0) == multiset(d[..HandSize]) &&
      multiset(DealtHands(rs, rs1, rs2).1) == multiset(d[HandSize..2 * HandSize])
  {
    var d := ShuffleFrom(Deck(), rs, |rs|);
    var a, b := d[..HandSize], d[HandSize..2 * HandSize];
    assert multiset(a) !! multiset(b) && multiset(a) + multiset(b) <= multiset(Deck()) by {
      ShufflePermutes(Deck(), rs, |rs|);
      DealSlices(d);
    }
    SpecialsAtMost(a);
    SpecialsAtMost(b);
    assert DealtHands(rs, rs1, rs2) == (SortedHand(a, rs1), SortedHand(b, rs2));
    SortedHandSound(a, rs1);
    SortedHandSound(b, rs2);
  }

  /** The deal of main.js: fresh deck, shuffle in place, the slices [0, 10)
      and [10, 20), each sorted. */
  method DealHands(rs: seq<real>, rs1: seq<real>, rs2: seq<real>) returns (h1: Hand, h2: Hand)
    requires RandomDraws(rs) && |rs| == DeckSize
    requires RandomDraws(rs1) && |rs1| >= HandSize
    requires RandomDraws(rs2) && |rs2| >= HandSize
    ensures (h1, h2) == DealtHands(rs, rs1, rs2)
  {
    var deck := Deck();
    var a := new Card[DeckSize](i requires 0 <= i < DeckSize => deck[i]);
    assert a[..] == deck;
    Shuffle(a, rs);
    var d := a[..];
    SpecialsAtMost(d[..HandSize]);
    SpecialsAtMost(d[HandSize..2 * HandSize]);
    h1 := SortHand(d[..HandSize], rs1);
    h2 := SortHand(d[HandSize..2 * HandSize], rs2);
  }

  /** Every dealt card is a hidden deck card. */
  lemma DealtCardsHidden(h: Hand)
    requires multiset(h) <= multiset(Deck())
    ensures Binary(h)
    ensures forall i | 0 <= i < |h| :: h[i].show == 0 && MinValue <= h[i].value <= MaxValue
  {
    forall i | 0 <= i < |h| ensures h[i].show == 0 && MinValue <= h[i].value <= MaxValue {
      assert h[i] in multiset(h);
      DeckContents(h[i]);
    }
  }
}
