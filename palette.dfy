/**
 * The round-robin card colour palette (`cardColorsLight` and `getNextCardColor`).
 * The position in the palette (`currentColorIndex`) is threaded explicitly
 * through the pure code; the `Store` module keeps it as session state.
 */
module Palette {

  const CardColorsLight: seq<string> := [
    "#E3F2FD", "#FCE4EC", "#F3E5F5", "#E8EAF6", "#E0F2F1",
    "#FFF9C4", "#FFECB3", "#FFE0B2", "#F1F8E9", "#E1F5FE",
    "#F0F4C3", "#D7CCC8", "#CFD8DC", "#C8E6C9", "#B2EBF2"
  ]

  /** A valid value of `currentColorIndex`. */
  type ColorIndex = i: nat | i < 15

  /** The colour handed out at position `i`. */
  function ColorAt(i: ColorIndex): string {
    CardColorsLight[i]
  }

  /** The position after drawing one colour: `(i + 1) % cardColorsLight.length`. */
  function NextColorIndex(i: ColorIndex): ColorIndex {
    (i + 1) % |CardColorsLight|
  }

  /** The position after drawing `k` colours one at a time. */
  function Advance(i: ColorIndex, k: nat): ColorIndex
    decreases k
  {
    if k == 0 then i else Advance(NextColorIndex(i), k - 1)
  }

  /** Drawing `k` colours one by one moves the position by `k` modulo 15. */
  lemma {:induction false} AdvanceIsModular(i: ColorIndex, k: nat)
    ensures Advance(i, k) == (i + k) % 15
    decreases k
  {
    if k > 0 {
      AdvanceIsModular(NextColorIndex(i), k - 1);
      assert NextColorIndex(i) == (i + 1) % 15;
      ModAddOne(i, k - 1);
    }
  }

  /** ((i + 1) % 15 + k) % 15 == (i + 1 + k) % 15 for a palette position i. */
  lemma ModAddOne(i: ColorIndex, k: nat)
    ensures ((i + 1) % 15 + k) % 15 == (i + 1 + k) % 15
  {
    if i == 14 {
      assert (i + 1) % 15 == 0;
      assert (i + 1 + k) % 15 == (15 + k) % 15 == k % 15;
    } else {
      assert (i + 1) % 15 == i + 1;
    }
  }

  /** Drawing `j` then `k` colours is drawing `j + k`. */
  lemma {:induction false} AdvanceAdds(i: ColorIndex, j: nat, k: nat)
    ensures Advance(Advance(i, j), k) == Advance(i, j + k)
    decreases j
  {
    if j > 0 {
      AdvanceAdds(NextColorIndex(i), j - 1, k);
    }
  }

  /** Adding whole turns of the palette does not move the position. */
  lemma {:induction false} ModShift(x: nat, q: nat)
    ensures (x + 15 * q) % 15 == x % 15
    decreases q
  {
    if q > 0 {
      ModShift(x, q - 1);
      assert x + 15 * q == (x + 15 * (q - 1)) + 15;
    }
  }

  /** The position comes back after a whole number of turns of the palette
    * (none included) and after no other count of draws. */
  lemma PaletteCycle(i: ColorIndex, k: nat)
    ensures Advance(i, k) == i <==> k % 15 == 0
  {
    AdvanceIsModular(i, k);
    var q, r := k / 15, k % 15;
    assert i + k == (i + r) + 15 * q;
    ModShift(i + r, q);
  }

  /** Reads a palette position back from its colour, by the third and fifth
    * characters, which no two entries share. */
  function PositionOf(c: string): int
    requires |c| == 7
  {
    if c[2] == '3' && c[4] == '2' then 0
    else if c[2] == 'C' && c[4] == '4' then 1
    else if c[2] == '3' && c[4] == '5' then 2
    else if c[2] == '8' && c[4] == 'A' then 3
    else if c[2] == '0' && c[4] == '2' then 4
    else if c[2] == 'F' && c[4] == '9' then 5
    else if c[2] == 'F' && c[4] == 'C' then 6
    else if c[2] == 'F' && c[4] == '0' then 7
    else if c[2] == '1' && c[4] == '8' then 8
    else if c[2] == '1' && c[4] == '5' then 9
    else if c[2] == '0' && c[4] == '4' then 10
    else if c[2] == '7' && c[4] == 'C' then 11
    else if c[2] == 'F' && c[4] == '8' then 12
    else if c[2] == '8' && c[4] == '6' then 13
    else if c[2] == '2' && c[4] == 'B' then 14
    else -1
  }

  /** Each colour reads back as its own position. */
  lemma PositionOfColorAt(i: ColorIndex)
    ensures |ColorAt(i)| == 7 && PositionOf(ColorAt(i)) == i
  {
    if i == 0 {
      assert ColorAt(i) == "#E3F2FD";
    } else if i == 1 {
      assert ColorAt(i) == "#FCE4EC";
    } else if i == 2 {
      assert ColorAt(i) == "#F3E5F5";
    } else if i == 3 {
      assert ColorAt(i) == "#E8EAF6";
    } else if i == 4 {
      assert ColorAt(i) == "#E0F2F1";
    } else if i == 5 {
      assert ColorAt(i) == "#FFF9C4";
    } else if i == 6 {
      assert ColorAt(i) == "#FFECB3";
    } else if i == 7 {
      assert ColorAt(i) == "#FFE0B2";
    } else if i == 8 {
      assert ColorAt(i) == "#F1F8E9";
    } else if i == 9 {
      assert ColorAt(i) == "#E1F5FE";
    } else if i == 10 {
      assert ColorAt(i) == "#F0F4C3";
    } else if i == 11 {
      assert ColorAt(i) == "#D7CCC8";
    } else if i == 12 {
      assert ColorAt(i) == "#CFD8DC";
    } else if i == 13 {
      assert ColorAt(i) == "#C8E6C9";
    } else if i == 14 {
      assert ColorAt(i) == "#B2EBF2";
    }
  }

  /** The fifteen palette entries are pairwise different. */
  lemma ColorsDistinct(i: ColorIndex, j: ColorIndex)
    ensures ColorAt(i) == ColorAt(j) <==> i == j
  {
    PositionOfColorAt(i);
    PositionOfColorAt(j);
  }

  /** A card gets the same colour as one drawn k draws earlier exactly when
    * k is a whole number of turns of the palette. */
  lemma ColorCycle(i: ColorIndex, k: nat)
    ensures ColorAt(Advance(i, k)) == ColorAt(i) <==> k % 15 == 0
  {
    PaletteCycle(i, k);
    ColorsDistinct(Advance(i, k), i);
  }
}
