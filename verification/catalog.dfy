/**
 The catalog of the sixteen card types: one per colour and suit, with values
 laid out as a 4 x 4 Latin square, listed in ascending order of value.
 */
module Catalog {
  import opened Cards
  import opened Seqs

  /** A card type record holding exactly the given colour, suit and value. */
  function GenerateCardType(color: Color, suit: Suit, value: int): (t: CardType)
    ensures t.color == color && t.suit == suit && t.value == value
  {
    CardType(color, suit, value)
  }

  /**
   The type the catalog assigns to colour index `i` and suit index `j`: its
   value is `i + j + 1`, brought back into 1 to 4 by subtracting 4.
   */
  function LatinEntry(i: int, j: int): CardType
    requires 0 <= i < 4 && 0 <= j < 4
  {
    CardType(Colors[i], Suits[j], if i + j < 4 then i + j + 1 else i + j - 3)
  }

  /** The value at colour index `i` and suit index `j` is `((i + j) mod 4) + 1`. */
  lemma LatinValueIsModular(i: int, j: int)
    requires 0 <= i < 4 && 0 <= j < 4
    ensures LatinEntry(i, j).value == (i + j) % 4 + 1
    ensures 1 <= LatinEntry(i, j).value <= 4
  {
  }

  /** Row `i` of the grid: the four types of colour `Colors[i]`, one per suit in order. */
  function Row(i: int): seq<CardType>
    requires 0 <= i < 4
  {
    [LatinEntry(i, 0), LatinEntry(i, 1), LatinEntry(i, 2), LatinEntry(i, 3)]
  }

  /** The first `i` rows of the grid. */
  function RowsBefore(i: int): seq<CardType>
    requires 0 <= i <= 4
  {
    if i == 0 then [] else RowsBefore(i - 1) + Row(i - 1)
  }

  /** The catalog before sorting: colour-major, suit-minor. */
  function LatinGrid(): seq<CardType> {
    RowsBefore(4)
  }

  /**
   The generator's nested loops: for each colour the value starts one higher
   than for the previous colour and wraps from 5 back to 1 across the suits.
   */
  method GenerateGrid() returns (types: seq<CardType>)
    ensures types == LatinGrid()
  {
    types := [];
    var startingNumber := 1;
    var i := 0;
    while i < 4
      invariant 0 <= i <= 4
      invariant startingNumber == i + 1
      invariant types == RowsBefore(i)
    {
      var j := 0;
      while j < 4
        invariant 0 <= j <= 4
        invariant types == RowsBefore(i) + Row(i)[..j]
      {
        var value := startingNumber + j;
        if value > 4 {
          value := value - 4;
        }
        GrowRow(i, j);
        types := types + [GenerateCardType(Colors[i], Suits[j], value)];
        j := j + 1;
      }
      FullRow(i);
      startingNumber := startingNumber + 1;
      i := i + 1;
    }
  }

  lemma GrowRow(i: int, j: int)
    requires 0 <= i < 4 && 0 <= j < 4
    ensures RowsBefore(i) + Row(i)[..j] + [LatinEntry(i, j)] == RowsBefore(i) + Row(i)[..j + 1]
  {
    assert Row(i)[..j + 1] == Row(i)[..j] + [Row(i)[j]];
  }

  lemma FullRow(i: int)
    requires 0 <= i < 4
    ensures RowsBefore(i) + Row(i)[..4] == RowsBefore(i + 1)
  {
    assert Row(i)[..4] == Row(i);
  }

  // ---------------------------------------------------------------------------
  // Sorting by value
  // ---------------------------------------------------------------------------

  ghost predicate SortedByValue(s: seq<CardType>) {
    forall a, b :: 0 <= a < b < |s| ==> s[a].value <= s[b].value
  }

  function WithValue(v: int): CardType -> bool {
    (t: CardType) => t.value == v
  }

  /** Inserts `x` before the first element whose value is not smaller. */
  function InsertByValue(x: CardType, s: seq<CardType>): (r: seq<CardType>)
    requires SortedByValue(s)
    ensures SortedByValue(r)
    ensures multiset(r) == multiset(s) + multiset{x}
  {
    if |s| == 0 || x.value <= s[0].value then [x] + s
    else
      var rest := InsertByValue(x, s[1..]);
      assert multiset(s) == multiset{s[0]} + multiset(s[1..]) by {
        assert s == [s[0]] + s[1..];
      }
      InsertedTailBound(x, s, rest);
      [s[0]] + rest
  }

  /** Inserting into the tail of `s` a card worth more than `s[0]` gives cards worth at least `s[0]`. */
  lemma InsertedTailBound(x: CardType, s: seq<CardType>, rest: seq<CardType>)
    requires SortedByValue(s) && |s| != 0 && s[0].value < x.value
    requires multiset(rest) == multiset(s[1..]) + multiset{x}
    ensures forall k :: 0 <= k < |rest| ==> s[0].value <= rest[k].value
  {
    forall k | 0 <= k < |rest| ensures s[0].value <= rest[k].value {
      assert rest[k] in multiset(rest);
      if rest[k] != x {
        assert rest[k] in multiset(s[1..]);
        var m :| 0 <= m < |s[1..]| && s[1..][m] == rest[k];
        assert s[m + 1] == rest[k];
      }
    }
  }

  /**
   The stable sort `Array.prototype.sort` performs with a comparator that
   subtracts values: an insertion sort in which an element never passes one
   of equal value.
   */
  function SortByValue(s: seq<CardType>): (r: seq<CardType>)
    ensures SortedByValue(r)
    ensures multiset(r) == multiset(s)
  {
    if |s| == 0 then []
    else
      assert s == [s[0]] + s[1..];
      InsertByValue(s[0], SortByValue(s[1..]))
  }

  lemma {:induction false} InsertKeepsOrderOfEquals(x: CardType, s: seq<CardType>, v: int)
    requires SortedByValue(s)
    ensures Filter(InsertByValue(x, s), WithValue(v))
         == (if x.value == v then [x] else []) + Filter(s, WithValue(v))
    decreases |s|
  {
    if |s| == 0 || x.value <= s[0].value {
      assert ([x] + s)[1..] == s;
    } else {
      InsertKeepsOrderOfEquals(x, s[1..], v);
      var rest := InsertByValue(x, s[1..]);
      assert ([s[0]] + rest)[1..] == rest;
      assert s == [s[0]] + s[1..];
    }
  }

  /** Sorting keeps cards of equal value in their original relative order. */
  lemma {:induction false} SortIsStable(s: seq<CardType>, v: int)
    ensures Filter(SortByValue(s), WithValue(v)) == Filter(s, WithValue(v))
    decreases |s|
  {
    if |s| != 0 {
      SortIsStable(s[1..], v);
      InsertKeepsOrderOfEquals(s[0], SortByValue(s[1..]), v);
    }
  }

  /**
   Two sequences sorted by value that agree on the order of the cards of
   each value are equal: every stable sort by value gives the same result.
   */
  lemma {:induction false} StableSortIsUnique(a: seq<CardType>, b: seq<CardType>)
    requires SortedByValue(a) && SortedByValue(b)
    requires forall v :: Filter(a, WithValue(v)) == Filter(b, WithValue(v))
    ensures a == b
    decreases |a|
  {
    if |a| == 0 {
      NoValueMeansEmpty(b);
    } else if |b| == 0 {
      NoValueMeansEmpty(a);
    } else {
      var va, vb := a[0].value, b[0].value;
      assert b[0] in Filter(b, WithValue(vb));
      assert b[0] in Filter(a, WithValue(vb));
      assert a[0] in Filter(a, WithValue(va));
      assert a[0] in Filter(b, WithValue(va));
      LeastValueFirst(a, b[0]);
      LeastValueFirst(b, a[0]);
      assert va == vb;
      FilterHead(a, WithValue(va));
      FilterHead(b, WithValue(va));
      assert a[0] == Filter(a, WithValue(va))[0] == Filter(b, WithValue(va))[0] == b[0];
      forall v ensures Filter(a[1..], WithValue(v)) == Filter(b[1..], WithValue(v)) {
        FilterDropHead(a, WithValue(v));
        FilterDropHead(b, WithValue(v));
      }
      StableSortIsUnique(a[1..], b[1..]);
      assert a == [a[0]] + a[1..];
      assert b == [b[0]] + b[1..];
    }
  }

  /** A non-empty sequence has cards of at least one value. */
  lemma NoValueMeansEmpty(s: seq<CardType>)
    ensures (forall v :: Filter(s, WithValue(v)) == []) ==> |s| == 0
  {
    if |s| != 0 {
      FilterHead(s, WithValue(s[0].value));
    }
  }

  /** In a sequence sorted by value, the first element has the least value. */
  lemma LeastValueFirst(s: seq<CardType>, t: CardType)
    requires SortedByValue(s) && |s| != 0 && t in s
    ensures s[0].value <= t.value
  {
    var k :| 0 <= k < |s| && s[k] == t;
    if k != 0 {
      assert s[0].value <= s[k].value;
    }
  }

  // ---------------------------------------------------------------------------
  // The catalog
  // ---------------------------------------------------------------------------

  function WithColor(c: Color): CardType -> bool {
    (t: CardType) => t.color == c
  }

  function WithSuit(s: Suit): CardType -> bool {
    (t: CardType) => t.suit == s
  }

  function WithColorAndSuit(c: Color, s: Suit): CardType -> bool {
    (t: CardType) => t.color == c && t.suit == s
  }

  /**
   The catalog as the seeder builds it: the Latin-square grid, sorted by
   value. Every type sits on the square, each colour and suit pair occurs
   once, and the four types of each value come in colour order, because the
   sort is stable and the grid is built colour by colour.
   */
  method GenerateCardTypes() returns (types: seq<CardType>)
    ensures |types| == 16
    ensures SortedByValue(types)
    ensures forall t :: t in types ==> t == LatinEntry(ColorIndex(t.color), SuitIndex(t.suit))
    ensures forall v :: 1 <= v <= 4 ==> Filter(types, WithValue(v)) == TypesOfValue(v)
    ensures CatalogCounted(types)
    ensures LatinValues(types)
  {
    var grid := GenerateGrid();
    types := SortCardTypes(grid);
    CatalogCounts(types);
    CatalogLatin(types);
    CatalogOrder(types);
    CatalogEntries(types);
  }

  /**
   `Array.prototype.sort` with the comparator `a.value - b.value`: the result
   is ordered by value, holds the same card types, and keeps the types of
   each value in their original order.
   */
  method SortCardTypes(s: seq<CardType>) returns (r: seq<CardType>)
    ensures SortedByValue(r)
    ensures multiset(r) == multiset(s)
    ensures forall v :: Filter(r, WithValue(v)) == Filter(s, WithValue(v))
  {
    r := SortByValue(s);
    SortIsStableForAll(s);
  }

  lemma SortIsStableForAll(s: seq<CardType>)
    ensures forall v :: Filter(SortByValue(s), WithValue(v)) == Filter(s, WithValue(v))
  {
    forall v ensures Filter(SortByValue(s), WithValue(v)) == Filter(s, WithValue(v)) {
      SortIsStable(s, v);
    }
  }

  /** The suit index at which colour index `i` carries value `v`. */
  function ValueColumn(i: int, v: int): (j: int)
    requires 0 <= i < 4 && 1 <= v <= 4
    ensures 0 <= j < 4 && LatinEntry(i, j).value == v
  {
    if v - 1 - i >= 0 then v - 1 - i else v + 3 - i
  }

  /** The grid type of colour index `i` and value `v`. */
  function ValueEntry(i: int, v: int): (t: CardType)
    requires 0 <= i < 4 && 1 <= v <= 4
    ensures t.color == Colors[i] && t.value == v
  {
    LatinEntry(i, ValueColumn(i, v))
  }

  /** The four grid types of value `v`, one per colour, in colour order. */
  function TypesOfValue(v: int): (r: seq<CardType>)
    requires 1 <= v <= 4
    ensures |r| == 4
    ensures forall i :: 0 <= i < 4 ==> r[i].color == Colors[i] && r[i].value == v
  {
    [ValueEntry(0, v), ValueEntry(1, v), ValueEntry(2, v), ValueEntry(3, v)]
  }

  /** A sequence ordered like the grid within each value lists each value's types in colour order. */
  lemma CatalogOrder(types: seq<CardType>)
    requires forall v :: Filter(types, WithValue(v)) == Filter(LatinGrid(), WithValue(v))
    ensures forall v :: 1 <= v <= 4 ==> Filter(types, WithValue(v)) == TypesOfValue(v)
  {
    forall v | 1 <= v <= 4 ensures Filter(types, WithValue(v)) == TypesOfValue(v) {
      GridFilter(v);
    }
  }

  /** The grid's types of value `v`, in grid order, are one per colour in colour order. */
  lemma GridFilter(v: int)
    requires 1 <= v <= 4
    ensures Filter(LatinGrid(), WithValue(v)) == TypesOfValue(v)
  {
    GridFilterByRow(v);
    TypesOfValueParts(v);
  }

  lemma TypesOfValueParts(v: int)
    requires 1 <= v <= 4
    ensures TypesOfValue(v) == [ValueEntry(0, v)] + [ValueEntry(1, v)] + [ValueEntry(2, v)] + [ValueEntry(3, v)]
  {
  }

  lemma GridFilterByRow(v: int)
    requires 1 <= v <= 4
    ensures Filter(LatinGrid(), WithValue(v)) == [ValueEntry(0, v)] + [ValueEntry(1, v)] + [ValueEntry(2, v)] + [ValueEntry(3, v)]
  {
    GridAsRows();
    FilterFourParts(Row(0), Row(1), Row(2), Row(3), WithValue(v));
    RowFilter(0, v);
    RowFilter(1, v);
    RowFilter(2, v);
    RowFilter(3, v);
  }

  lemma FilterFourParts<T(!new)>(a: seq<T>, b: seq<T>, c: seq<T>, d: seq<T>, p: T -> bool)
    ensures Filter(a + b + c + d, p) == Filter(a, p) + Filter(b, p) + Filter(c, p) + Filter(d, p)
  {
    FilterConcat(a + b + c, d, p);
    FilterConcat(a + b, c, p);
    FilterConcat(a, b, p);
  }

  /** Row `i` holds exactly one type of value `v`. */
  lemma RowFilter(i: int, v: int)
    requires 0 <= i < 4 && 1 <= v <= 4
    ensures Filter(Row(i), WithValue(v)) == [ValueEntry(i, v)]
  {
    RowValues(i);
    FilterUnique(Row(i), WithValue(v), ValueColumn(i, v));
  }

  /** Every type of a sequence ordered like `TypesOfValue` lies on the Latin square. */
  lemma CatalogEntries(types: seq<CardType>)
    requires forall v :: 1 <= v <= 4 ==> Filter(types, WithValue(v)) == TypesOfValue(v)
    requires forall t :: t in types ==> 1 <= t.value <= 4
    ensures forall t :: t in types ==> t == LatinEntry(ColorIndex(t.color), SuitIndex(t.suit))
  {
    forall t | t in types ensures t == LatinEntry(ColorIndex(t.color), SuitIndex(t.suit)) {
      var v := t.value;
      assert t in Filter(types, WithValue(v));
      var r := TypesOfValue(v);
      var i :| 0 <= i < 4 && r[i] == t;
      var j := ValueColumn(i, v);
      assert t == ValueEntry(i, v) == LatinEntry(i, j);
      ColorIndexOf(i);
      SuitIndexOf(j);
    }
  }

  /**
   One card type per colour and suit pair; four of each value 1 to 4, of
   each colour and of each suit.
   */
  ghost predicate CatalogCounted(types: seq<CardType>) {
    && (forall c, s :: CountIf(types, WithColorAndSuit(c, s)) == 1)
    && (forall v :: 1 <= v <= 4 ==> CountIf(types, WithValue(v)) == 4)
    && (forall c :: CountIf(types, WithColor(c)) == 4)
    && (forall s :: CountIf(types, WithSuit(s)) == 4)
  }

  /**
   Values lie in 1 to 4 and form a Latin square: no two types of one colour,
   nor two of one suit, share a value.
   */
  ghost predicate LatinValues(types: seq<CardType>) {
    && (forall t :: t in types ==> 1 <= t.value <= 4)
    && (forall t, u :: t in types && u in types && t != u && t.color == u.color ==> t.value != u.value)
    && (forall t, u :: t in types && u in types && t != u && t.suit == u.suit ==> t.value != u.value)
  }

  /** Any reordering of the grid has the grid's counts. */
  lemma CatalogCounts(types: seq<CardType>)
    requires multiset(types) == multiset(LatinGrid())
    ensures |types| == 16
    ensures CatalogCounted(types)
  {
    PermutationLength(types, LatinGrid());
    GridAsRows();
    PermutedPairCounts(types);
    PermutedValueCounts(types);
    PermutedColorCounts(types);
    PermutedSuitCounts(types);
  }

  lemma PermutedPairCounts(types: seq<CardType>)
    requires multiset(types) == multiset(LatinGrid())
    ensures forall c, s :: CountIf(types, WithColorAndSuit(c, s)) == 1
  {
    forall c, s ensures CountIf(types, WithColorAndSuit(c, s)) == 1 {
      GridPairCount(c, s);
      CountIfPermutation(types, LatinGrid(), WithColorAndSuit(c, s));
    }
  }

  lemma PermutedValueCounts(types: seq<CardType>)
    requires multiset(types) == multiset(LatinGrid())
    ensures forall v :: 1 <= v <= 4 ==> CountIf(types, WithValue(v)) == 4
  {
    forall v | 1 <= v <= 4 ensures CountIf(types, WithValue(v)) == 4 {
      GridValueCount(v);
      CountIfPermutation(types, LatinGrid(), WithValue(v));
    }
  }

  lemma PermutedColorCounts(types: seq<CardType>)
    requires multiset(types) == multiset(LatinGrid())
    ensures forall c :: CountIf(types, WithColor(c)) == 4
  {
    forall c ensures CountIf(types, WithColor(c)) == 4 {
      GridColorCount(c);
      CountIfPermutation(types, LatinGrid(), WithColor(c));
    }
  }

  lemma PermutedSuitCounts(types: seq<CardType>)
    requires multiset(types) == multiset(LatinGrid())
    ensures forall s :: CountIf(types, WithSuit(s)) == 4
  {
    forall s ensures CountIf(types, WithSuit(s)) == 4 {
      GridSuitCount(s);
      CountIfPermutation(types, LatinGrid(), WithSuit(s));
    }
  }

  /** Any reordering of the grid keeps its values in 1 to 4 and its Latin-square property. */
  lemma CatalogLatin(types: seq<CardType>)
    requires multiset(types) == multiset(LatinGrid())
    ensures LatinValues(types)
  {
    forall t | t in types ensures t in LatinGrid() {
      assert t in multiset(types);
    }
    GridLatin();
  }

  /** Every grid entry has value 1 to 4, and no two entries of one colour or one suit share a value. */
  lemma GridLatin()
    ensures forall t :: t in LatinGrid() ==> 1 <= t.value <= 4
    ensures forall t, u :: t in LatinGrid() && u in LatinGrid() && t != u && t.color == u.color ==> t.value != u.value
    ensures forall t, u :: t in LatinGrid() && u in LatinGrid() && t != u && t.suit == u.suit ==> t.value != u.value
  {
    forall t | t in LatinGrid() ensures 1 <= t.value <= 4 {
      var i, j := InGrid(t);
    }
    forall t, u | t in LatinGrid() && u in LatinGrid() && t != u
      ensures t.color == u.color ==> t.value != u.value
      ensures t.suit == u.suit ==> t.value != u.value
    {
      var i, j := InGrid(t);
      var i', j' := InGrid(u);
      EntriesDiffer(i, j, i', j');
    }
  }

  /** Where a grid entry sits. */
  lemma InGrid(t: CardType) returns (i: int, j: int)
    requires t in LatinGrid()
    ensures 0 <= i < 4 && 0 <= j < 4 && t == LatinEntry(i, j)
  {
    GridAsRows();
    i :| 0 <= i < 4 && t in Row(i);
    j :| 0 <= j < 4 && Row(i)[j] == t;
  }

  lemma GridAsRows()
    ensures LatinGrid() == Row(0) + Row(1) + Row(2) + Row(3)
    ensures forall t :: t in LatinGrid() ==> exists i :: 0 <= i < 4 && t in Row(i)
  {
    assert RowsBefore(1) == Row(0);
  }

  /** Two distinct entries of one row, or of one column, differ in value. */
  lemma EntriesDiffer(i: int, j: int, i': int, j': int)
    requires 0 <= i < 4 && 0 <= j < 4 && 0 <= i' < 4 && 0 <= j' < 4
    requires LatinEntry(i, j) != LatinEntry(i', j')
    ensures LatinEntry(i, j).color == LatinEntry(i', j').color ==> LatinEntry(i, j).value != LatinEntry(i', j').value
    ensures LatinEntry(i, j).suit == LatinEntry(i', j').suit ==> LatinEntry(i, j).value != LatinEntry(i', j').value
  {
    ColorIndexOf(i);
    ColorIndexOf(i');
    SuitIndexOf(j);
    SuitIndexOf(j');
  }

  lemma ColorIndexOf(i: int)
    requires 0 <= i < 4
    ensures ColorIndex(Colors[i]) == i
  {
  }

  lemma SuitIndexOf(j: int)
    requires 0 <= j < 4
    ensures SuitIndex(Suits[j]) == j
  {
  }

  lemma GridIsRows(p: CardType -> bool)
    ensures CountIf(LatinGrid(), p) == CountIf(Row(0), p) + CountIf(Row(1), p) + CountIf(Row(2), p) + CountIf(Row(3), p)
  {
    GridAsRows();
    CountIfConcat(Row(0) + Row(1) + Row(2), Row(3), p);
    CountIfConcat(Row(0) + Row(1), Row(2), p);
    CountIfConcat(Row(0), Row(1), p);
  }

  lemma RowEntry(i: int, j: int)
    requires 0 <= i < 4 && 0 <= j < 4
    ensures Row(i)[j] == LatinEntry(i, j)
  {
  }

  /** Each colour and suit pair labels exactly one grid entry. */
  lemma GridPairCount(c: Color, s: Suit)
    ensures CountIf(LatinGrid(), WithColorAndSuit(c, s)) == 1
  {
    GridIsRows(WithColorAndSuit(c, s));
    RowPairCount(0, c, s);
    RowPairCount(1, c, s);
    RowPairCount(2, c, s);
    RowPairCount(3, c, s);
  }

  lemma RowPairCount(i: int, c: Color, s: Suit)
    requires 0 <= i < 4
    ensures CountIf(Row(i), WithColorAndSuit(c, s)) == if Colors[i] == c then 1 else 0
  {
    if Colors[i] == c {
      CountIfUnique(Row(i), WithColorAndSuit(c, s), SuitIndex(s));
    } else {
      CountIfNone(Row(i), WithColorAndSuit(c, s));
    }
  }

  /** Each value 1 to 4 occurs once in every row, so four times in the grid. */
  lemma GridValueCount(v: int)
    requires 1 <= v <= 4
    ensures CountIf(LatinGrid(), WithValue(v)) == 4
  {
    GridIsRows(WithValue(v));
    RowValueCount(0, v);
    RowValueCount(1, v);
    RowValueCount(2, v);
    RowValueCount(3, v);
  }

  lemma RowValueCount(i: int, v: int)
    requires 0 <= i < 4 && 1 <= v <= 4
    ensures CountIf(Row(i), WithValue(v)) == 1
  {
    var j := if v - 1 - i >= 0 then v - 1 - i else v + 3 - i;
    RowValues(i);
    CountIfUnique(Row(i), WithValue(v), j);
  }

  lemma RowValues(i: int)
    requires 0 <= i < 4
    ensures forall k :: 0 <= k < 4 ==> Row(i)[k].value == if i + k < 4 then i + k + 1 else i + k - 3
  {
  }

  /** The four entries of one colour form one row. */
  lemma GridColorCount(c: Color)
    ensures CountIf(LatinGrid(), WithColor(c)) == 4
  {
    GridIsRows(WithColor(c));
    RowColorCount(0, c);
    RowColorCount(1, c);
    RowColorCount(2, c);
    RowColorCount(3, c);
  }

  lemma RowColorCount(i: int, c: Color)
    requires 0 <= i < 4
    ensures CountIf(Row(i), WithColor(c)) == if Colors[i] == c then 4 else 0
  {
    if Colors[i] == c {
      CountIfAll(Row(i), WithColor(c));
    } else {
      CountIfNone(Row(i), WithColor(c));
    }
  }

  /** Every row holds each suit once. */
  lemma GridSuitCount(s: Suit)
    ensures CountIf(LatinGrid(), WithSuit(s)) == 4
  {
    GridIsRows(WithSuit(s));
    RowSuitCount(0, s);
    RowSuitCount(1, s);
    RowSuitCount(2, s);
    RowSuitCount(3, s);
  }

  lemma RowSuitCount(i: int, s: Suit)
    requires 0 <= i < 4
    ensures CountIf(Row(i), WithSuit(s)) == 1
  {
    CountIfUnique(Row(i), WithSuit(s), SuitIndex(s));
  }

  function ColorIndex(c: Color): (i: int)
    ensures 0 <= i < 4 && Colors[i] == c
  {
    match c
    case Red => 0
    case Green => 1
    case Purple => 2
    case Blue => 3
  }

  function SuitIndex(s: Suit): (j: int)
    ensures 0 <= j < 4 && Suits[j] == s
  {
    match s
    case Key => 0
    case Skull => 1
    case Ring => 2
    case Feather => 3
  }
}
