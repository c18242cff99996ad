/**
 * The colour picker for job output (src/cli_colors.rs).
 *
 * Fourteen ANSI foreground colours are handed out in a shuffled order, one
 * per newly seen key; a key keeps its colour for good. When all fourteen
 * have been handed out the order is shuffled again and a new cycle starts.
 * The shuffle is a Fisher-Yates pass driven by the sub-second nanoseconds
 * of the clock, passed in here as `nanos`.
 */
module CliColors {
  import opened Wrappers
  import opened Text

  const ESC: byte := 27
  const PALETTE_SIZE: nat := 14

  /** `ESC [ <code> m`, a Select Graphic Rendition sequence. */
  function Sgr(code: Bytes): (r: Bytes)
    ensures |r| == |code| + 3 && r[..2] == [ESC, 91] && r[|r| - 1] == 109
    ensures r[2..|r| - 1] == code
  {
    [ESC, 91] + code + [109]
  }

  /** Black, red, green, yellow, blue, magenta, cyan (30-36), then their
    * bright forms (90-96). */
  const PALETTE: seq<Bytes> := [
    Sgr([51, 48]), Sgr([51, 49]), Sgr([51, 50]), Sgr([51, 51]), Sgr([51, 52]), Sgr([51, 53]), Sgr([51, 54]),
    Sgr([57, 48]), Sgr([57, 49]), Sgr([57, 50]), Sgr([57, 51]), Sgr([57, 52]), Sgr([57, 53]), Sgr([57, 54])]

  /** `(0..14).collect()` */
  const IDENTITY: seq<nat> := seq(PALETTE_SIZE, i => i)

  /** An order of the palette: the fourteen colour indices, each once. */
  predicate IsOrder(s: seq<nat>) {
    && |s| == PALETTE_SIZE
    && (forall i :: 0 <= i < |s| ==> s[i] < PALETTE_SIZE)
    && (forall i, j :: 0 <= i < j < |s| ==> s[i] != s[j])
    && (forall c :: 0 <= c < PALETTE_SIZE ==> c in s)
  }

  /** The partner of position `i` in the shuffle:
    * `nanos.wrapping_add(i * 31) % (i + 1)`. */
  function SwapIndex(nanos: nat, i: nat): (j: nat)
    ensures j <= i
  {
    (nanos + i * 31) % USIZE_MODULUS % (i + 1)
  }

  function Swap(s: seq<nat>, i: nat, j: nat): (r: seq<nat>)
    requires i < |s| && j < |s|
    ensures |r| == |s| && r[i] == s[j] && r[j] == s[i]
    ensures forall k :: 0 <= k < |s| && k != i && k != j ==> r[k] == s[k]
  {
    s[i := s[j]][j := s[i]]
  }

  /** The swaps at positions `i`, `i - 1`, ..., 1, in that order. */
  function ShuffleFrom(s: seq<nat>, nanos: nat, i: nat): (r: seq<nat>)
    requires i < |s|
    ensures |r| == |s|
    decreases i
  {
    if i == 0 then s else ShuffleFrom(Swap(s, i, SwapIndex(nanos, i)), nanos, i - 1)
  }

  /** A swap permutes: every element keeps a place, and distinct places
    * keep distinct elements. */
  lemma SwapPermutes(s: seq<nat>, i: nat, j: nat)
    requires i < |s| && j < |s|
    ensures IsOrder(s) ==> IsOrder(Swap(s, i, j))
  {
    var r := Swap(s, i, j);
    if IsOrder(s) {
      forall p, q | 0 <= p < q < |r| ensures r[p] != r[q] {
        var p' := if p == i then j else if p == j then i else p;
        var q' := if q == i then j else if q == j then i else q;
        assert r[p] == s[p'] && r[q] == s[q'] && p' != q';
      }
      forall c | 0 <= c < PALETTE_SIZE ensures c in r {
        assert c in s;
        var k :| 0 <= k < |s| && s[k] == c;
        var k' := if k == i then j else if k == j then i else k;
        assert r[k'] == c;
      }
    }
  }

  /** The whole shuffle permutes its input. */
  lemma {:induction false} ShufflePermutes(s: seq<nat>, nanos: nat, i: nat)
    requires i < |s|
    ensures IsOrder(s) ==> IsOrder(ShuffleFrom(s, nanos, i))
    decreases i
  {
    if i > 0 {
      SwapPermutes(s, i, SwapIndex(nanos, i));
      ShufflePermutes(Swap(s, i, SwapIndex(nanos, i)), nanos, i - 1);
    }
  }

  /** The starting order `0, 1, ..., 13` is an order. */
  lemma IdentityIsOrder()
    ensures IsOrder(IDENTITY)
  {
    forall c | 0 <= c < PALETTE_SIZE ensures c in IDENTITY {
      assert IDENTITY[c] == c;
    }
  }

  /** Every palette entry is an ANSI escape sequence `ESC [ ...`. */
  lemma PaletteIsAnsi(c: Bytes)
    requires c in PALETTE
    ensures |c| >= 3 && c[..2] == [ESC, 91]
  {
  }

  /** From table `before` to table `after`, only `key` may gain a colour:
    * every other slot is as it was (a new slot is empty), and a colour
    * already given to `key` stays. */
  predicate KeepsColors(before: seq<Option<nat>>, after: seq<Option<nat>>, key: nat) {
    && |before| <= |after|
    && (forall k :: 0 <= k < |after| && k != key ==> after[k] == if k < |before| then before[k] else None)
    && (key < |before| && before[key].Some? ==> after[key] == before[key])
  }

  /** `CliColorPicker`. `cycleKeys` (ghost) lists the keys given a colour
    * since the last shuffle, in order. */
  class CliColorPicker {
    const colorOrder: array<nat>
    var jobColors: seq<Option<nat>>
    var nextColorIdx: nat
    ghost var cycleKeys: seq<nat>

    ghost predicate Valid()
      reads this, colorOrder
    {
      && IsOrder(colorOrder[..])
      && nextColorIdx <= PALETTE_SIZE
      && (forall k :: 0 <= k < |jobColors| && jobColors[k].Some? ==> jobColors[k].value < PALETTE_SIZE)
      && |cycleKeys| == nextColorIdx
      && (forall i :: 0 <= i < nextColorIdx ==>
            cycleKeys[i] < |jobColors| && jobColors[cycleKeys[i]] == Some(colorOrder[i]))
    }

    predicate Assigned(key: nat)
      reads this
    {
      key < |jobColors| && jobColors[key].Some?
    }

    /** `new`: the identity order shuffled once, no key assigned. */
    constructor(nanos: nat)
      ensures Valid() && fresh(colorOrder)
      ensures colorOrder[..] == ShuffleFrom(IDENTITY, nanos, PALETTE_SIZE - 1)
      ensures jobColors == [] && nextColorIdx == 0
    {
      colorOrder := new nat[PALETTE_SIZE](i => i);
      jobColors := [];
      nextColorIdx := 0;
      cycleKeys := [];
      new;
      assert colorOrder[..] == IDENTITY;
      IdentityIsOrder();
      Shuffle(nanos);
    }

    /** `shuffle_order`: Fisher-Yates from the last position down to 1,
      * then a new cycle. */
    method Shuffle(nanos: nat)
      requires IsOrder(colorOrder[..])
      requires forall k :: 0 <= k < |jobColors| && jobColors[k].Some? ==> jobColors[k].value < PALETTE_SIZE
      modifies this, colorOrder
      ensures colorOrder[..] == ShuffleFrom(old(colorOrder[..]), nanos, PALETTE_SIZE - 1)
      ensures jobColors == old(jobColors) && nextColorIdx == 0
      ensures Valid()
    {
      ShufflePermutes(colorOrder[..], nanos, PALETTE_SIZE - 1);
      var i := colorOrder.Length - 1;
      while i >= 1
        invariant 0 <= i < colorOrder.Length
        invariant ShuffleFrom(colorOrder[..], nanos, i) == ShuffleFrom(old(colorOrder[..]), nanos, PALETTE_SIZE - 1)
        invariant jobColors == old(jobColors)
        decreases i
      {
        var j := (nanos + i * 31) % USIZE_MODULUS % (i + 1);
        ghost var before := colorOrder[..];
        colorOrder[i], colorOrder[j] := colorOrder[j], colorOrder[i];
        assert colorOrder[..] == Swap(before, i, j);
        i := i - 1;
      }
      nextColorIdx := 0;
      cycleKeys := [];
    }

    /** `get`: the colour of `key`, assigning the next colour of the cycle
      * (after a reshuffle when the cycle is used up) to a new key. */
    method Get(key: nat, nanos: nat) returns (color: Bytes)
      requires Valid()
      modifies this, colorOrder
      ensures Valid()
      ensures color in PALETTE
      ensures Assigned(key) && color == PALETTE[jobColors[key].value]
      ensures KeepsColors(old(jobColors), jobColors, key)
      ensures |jobColors| == if key < old(|jobColors|) then old(|jobColors|) else key + 1
      ensures forall k :: 0 <= k < |jobColors| && k != key ==>
        jobColors[k] == if k < old(|jobColors|) then old(jobColors[k]) else None
      ensures old(Assigned(key)) ==>
        jobColors == old(jobColors) && nextColorIdx == old(nextColorIdx) && colorOrder[..] == old(colorOrder[..])
      ensures !old(Assigned(key)) ==>
        && (old(nextColorIdx) < PALETTE_SIZE ==>
              colorOrder[..] == old(colorOrder[..]) && nextColorIdx == old(nextColorIdx) + 1)
        && (old(nextColorIdx) == PALETTE_SIZE ==>
              colorOrder[..] == ShuffleFrom(old(colorOrder[..]), nanos, PALETTE_SIZE - 1) && nextColorIdx == 1)
        && jobColors[key] == Some(colorOrder[nextColorIdx - 1])
    {
      if key >= |jobColors| {
        jobColors := jobColors + seq(key + 1 - |jobColors|, _ => None);
      }
      if jobColors[key].Some? {
        return PALETTE[jobColors[key].value];
      }
      color := AssignNext(key, nanos);
    }

    /** The rest of `get` for a key without a colour: the next colour of
      * the cycle, after a reshuffle when all fourteen are used. */
    method AssignNext(key: nat, nanos: nat) returns (color: Bytes)
      requires Valid() && key < |jobColors| && jobColors[key].None?
      modifies this, colorOrder
      ensures Valid() && 1 <= nextColorIdx
      ensures jobColors == old(jobColors)[key := Some(colorOrder[nextColorIdx - 1])]
      ensures color == PALETTE[colorOrder[nextColorIdx - 1]]
      ensures old(nextColorIdx) < PALETTE_SIZE ==>
        colorOrder[..] == old(colorOrder[..]) && nextColorIdx == old(nextColorIdx) + 1
      ensures old(nextColorIdx) == PALETTE_SIZE ==>
        colorOrder[..] == ShuffleFrom(old(colorOrder[..]), nanos, PALETTE_SIZE - 1) && nextColorIdx == 1
    {
      if nextColorIdx >= colorOrder.Length {
        Shuffle(nanos);
      }
      color := TakeNext(key);
    }

    /** Hands the next colour of an unfinished cycle to `key`. */
    method TakeNext(key: nat) returns (color: Bytes)
      requires Valid() && key < |jobColors| && jobColors[key].None?
      requires nextColorIdx < PALETTE_SIZE
      modifies this
      ensures Valid() && nextColorIdx == old(nextColorIdx) + 1
      ensures jobColors == old(jobColors)[key := Some(colorOrder[old(nextColorIdx)])]
      ensures color == PALETTE[colorOrder[old(nextColorIdx)]]
    {
      var colorIdx := colorOrder[nextColorIdx];
      nextColorIdx := nextColorIdx + 1;
      jobColors := jobColors[key := Some(colorIdx)];
      cycleKeys := cycleKeys + [key];
      forall k | 0 <= k < nextColorIdx
        ensures cycleKeys[k] < |jobColors| && jobColors[cycleKeys[k]] == Some(colorOrder[k])
      {
        if k < nextColorIdx - 1 {
          assert old(jobColors)[cycleKeys[k]].Some?;
        }
      }
      color := PALETTE[colorIdx];
    }

    /** Keys given a colour in the same cycle have different colours. */
    lemma CycleColorsDistinct()
      requires Valid()
      ensures forall p, q :: 0 <= p < q < nextColorIdx ==>
        jobColors[cycleKeys[p]] != jobColors[cycleKeys[q]]
    {
    }

    /** A finished cycle has used every colour of the palette once. */
    lemma FullCycleUsesWholePalette(c: nat)
      requires Valid() && nextColorIdx == PALETTE_SIZE && c < PALETTE_SIZE
      ensures exists i :: 0 <= i < PALETTE_SIZE && jobColors[cycleKeys[i]] == Some(c)
    {
      assert c in colorOrder[..];
      var i :| 0 <= i < PALETTE_SIZE && colorOrder[..][i] == c;
      assert jobColors[cycleKeys[i]] == Some(c);
    }
  }
}
