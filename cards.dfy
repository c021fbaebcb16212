/** Cards of the guessing game: a value 1..12, one of two colours, and a
    reveal counter `show` (0 while hidden, 1 once turned over). */
module Cards {

  datatype Option<T> = None | Some(value: T)

  datatype Color = Black | White

  /** A card as the server keeps it. `show` is a number, not a flag: the server
      writes only 0 and 1, but a hand replaced by the client during the reorder
      window may carry any number, and the unfolded check sums these numbers. */
  datatype Card = Card(value: int, color: Color, show: nat)

  type Hand = seq<Card>

  const SpecialCard: int := 1
  const MinValue: int := 1
  const MaxValue: int := 12

  /** The text shown on a card face; defined exactly on the values 1..12,
      where value 1 (the special card) reads "A". */
  function Display(v: int): (r: Option<string>)
    ensures r.Some? <==> MinValue <= v <= MaxValue
    ensures r == Some("A") <==> v == SpecialCard
  {
    if v == 1 then Some("A")
    else if v == 2 then Some("2")
    else if v == 3 then Some("3")
    else if v == 4 then Some("4")
    else if v == 5 then Some("5")
    else if v == 6 then Some("6")
    else if v == 7 then Some("7")
    else if v == 8 then Some("8")
    else if v == 9 then Some("9")
    else if v == 10 then Some("10")
    else if v == 11 then Some("11")
    else if v == 12 then Some("12")
    else None
  }

  /** Distinct values have distinct face texts. */
  lemma DisplayInjective(v: int, w: int)
    requires Display(v).Some? && Display(v) == Display(w)
    ensures v == w
  {
  }

  // ---------------------------------------------------------------
  // The order the dealer sorts a hand's normal cards into: by value,
  // and at equal value the white card first.
  // ---------------------------------------------------------------

  function ColorRank(c: Color): nat
  {
    match c
    case White => 0
    case Black => 1
  }

  predicate Le(a: Card, b: Card)
  {
    a.value < b.value || (a.value == b.value && ColorRank(a.color) <= ColorRank(b.color))
  }

  predicate Ordered(s: seq<Card>)
  {
    forall i, j | 0 <= i < j < |s| :: Le(s[i], s[j])
  }

  /** The dealer's comparator: -1 ("before") or 0, never a positive answer. */
  function Compare(a: Card, b: Card): (r: int)
    ensures r == -1 || r == 0
  {
    if a.value < b.value then -1
    else if a.value == b.value && a.color == White then -1
    else 0
  }

  /** On two cards that differ in value or colour the comparator answers -1
      exactly when the first comes strictly before the second in the order
      above, so a sort that only asks "is it negative?" places white before
      black at equal value. */
  lemma CompareMeansBefore(a: Card, b: Card)
    requires a.value != b.value || a.color != b.color
    ensures Compare(a, b) == -1 <==> Le(a, b)
    ensures Compare(a, b) == -1 ==> !Le(b, a)
  {
  }

  lemma LeTotal(a: Card, b: Card)
    ensures Le(a, b) || Le(b, a)
  {
  }

  /** The order distinguishes every pair of cards that differ in value or colour. */
  lemma LeAntisymmetric(a: Card, b: Card)
    requires Le(a, b) && Le(b, a)
    ensures a.value == b.value && a.color == b.color
  {
  }

  // ---------------------------------------------------------------
  // Revealing and the unfolded check
  // ---------------------------------------------------------------

  predicate IsShown(c: Card)
  {
    c.show != 0
  }

  /** Every card carries 0 or 1: what the server itself ever writes. */
  predicate Binary(h: Hand)
  {
    forall i | 0 <= i < |h| :: h[i].show <= 1
  }

  /** Sets the `show` of the card at `i` to 1 and touches nothing else. */
  function Reveal(h: Hand, i: int): (r: Hand)
    requires 0 <= i < |h|
    ensures |r| == |h|
    ensures r[i].show == 1 && r[i].value == h[i].value && r[i].color == h[i].color
    ensures forall j | 0 <= j < |h| && j != i :: r[j] == h[j]
  {
    h[i := h[i].(show := 1)]
  }

  /** Revealing never hides a card and keeps a 0/1 hand 0/1. */
  lemma RevealMonotone(h: Hand, i: int)
    requires 0 <= i < |h|
    ensures forall j | 0 <= j < |h| :: IsShown(h[j]) ==> IsShown(Reveal(h, i)[j])
    ensures Binary(h) ==> Binary(Reveal(h, i))
  {
  }

  function SumShow(h: Hand): nat
  {
    if h == [] then 0 else SumShow(h[..|h| - 1]) + h[|h| - 1].show
  }

  /** The server's unfolded check: the sum of the `show` numbers equals the
      number of cards. The source reduces without an initial value, which
      throws on an empty hand, hence the precondition. */
  predicate AllUnfolded(h: Hand)
    requires |h| > 0
  {
    SumShow(h) == |h|
  }

  lemma {:induction false} SumShowBound(h: Hand)
    requires Binary(h)
    ensures SumShow(h) <= |h|
    ensures SumShow(h) == |h| <==> forall i | 0 <= i < |h| :: h[i].show == 1
  {
    if h != [] {
      var init := h[..|h| - 1];
      assert Binary(init) by {
        forall i | 0 <= i < |init| ensures init[i].show <= 1 {
          assert init[i] == h[i];
        }
      }
      SumShowBound(init);
      if SumShow(h) == |h| {
        forall i | 0 <= i < |h| ensures h[i].show == 1 {
          if i < |h| - 1 {
            assert init[i] == h[i];
          }
        }
      }
      if forall i | 0 <= i < |h| :: h[i].show == 1 {
        assert forall i | 0 <= i < |init| :: init[i].show == 1 by {
          forall i | 0 <= i < |init| ensures init[i].show == 1 {
            assert init[i] == h[i];
          }
        }
      }
    }
  }

  /** On a hand the server dealt and revealed (every show 0 or 1), the sum test
      means exactly that every card is shown. */
  lemma AllUnfoldedMeansAllShown(h: Hand)
    requires |h| > 0 && Binary(h)
    ensures AllUnfolded(h) <==> forall i | 0 <= i < |h| :: IsShown(h[i])
  {
    SumShowBound(h);
  }

  /** A hand sent back by the client may fool the sum test: the numbers 2 and 0
      add up to the length of a two-card hand whose second card is hidden. */
  lemma ForgedShowFoolsUnfolded()
    ensures var h := [Card(5, Black, 2), Card(7, White, 0)];
            AllUnfolded(h) && !IsShown(h[1])
  {
    var h := [Card(5, Black, 2), Card(7, White, 0)];
    assert h[..1] == [Card(5, Black, 2)];
    assert h[..1][..0] == [];
  }
}
