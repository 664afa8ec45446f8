// Text as the terminal client sees it: a sequence of grapheme clusters, none of which is ever split.
module Clusters {
  import opened Sequences

  /** A cluster: what it spells, its length in bytes, its width in cells, and whether it is whitespace. */
  datatype RawCluster = RawCluster(glyph: string, size: nat, cells: nat, white: bool)

  /** Every cluster has a byte at least; spaces and tabs are whitespace, and there is one newline cluster. */
  type Cluster = c: RawCluster |
      && c.size >= 1
      && (c.glyph in [" ", "\t"] ==> c.white)
      && (c.glyph == "\n" ==> c == RawCluster("\n", 1, 0, true))
    witness RawCluster("a", 1, 1, false)

  type Line = seq<Cluster>

  const SPACE: Cluster := RawCluster(" ", 1, 1, true)
  const NEWLINE: Cluster := RawCluster("\n", 1, 0, true)

  predicate IsWhite(c: Cluster) {
    c.white
  }

  predicate IsVisible(c: Cluster) {
    !c.white
  }

  function Visible(text: seq<Cluster>): seq<Cluster> {
    Filter(text, IsVisible)
  }

  /** Display width. */
  function Cells(text: seq<Cluster>): nat {
    if text == [] then 0 else text[0].cells + Cells(text[1..])
  }

  lemma {:induction false} CellsAppend(a: seq<Cluster>, b: seq<Cluster>)
    ensures Cells(a + b) == Cells(a) + Cells(b)
  {
    if a == [] {
      assert a + b == b;
    } else {
      assert (a + b)[1..] == a[1..] + b;
      CellsAppend(a[1..], b);
    }
  }

  lemma {:induction false} CellsSnoc(a: seq<Cluster>, c: Cluster)
    ensures Cells(a + [c]) == Cells(a) + c.cells
  {
    CellsAppend(a, [c]);
    assert Cells([c]) == c.cells + Cells([]);
  }

  lemma {:induction false} CellsOfPart(text: seq<Cluster>, from: nat, to: nat)
    requires from <= to <= |text|
    ensures Cells(text[from..to]) <= Cells(text)
  {
    CellsAppend(text[..from], text[from..]);
    assert text == text[..from] + text[from..];
    CellsAppend(text[from..to], text[to..]);
    assert text[from..] == text[from..to] + text[to..];
  }

  /** Length in bytes. */
  function Bytes(text: seq<Cluster>): nat {
    if text == [] then 0 else text[0].size + Bytes(text[1..])
  }

  lemma {:induction false} BytesAppend(a: seq<Cluster>, b: seq<Cluster>)
    ensures Bytes(a + b) == Bytes(a) + Bytes(b)
  {
    if a == [] {
      assert a + b == b;
    } else {
      assert (a + b)[1..] == a[1..] + b;
      BytesAppend(a[1..], b);
    }
  }

  lemma {:induction false} BytesSnoc(text: seq<Cluster>, k: nat)
    requires k < |text|
    ensures Bytes(text[..k + 1]) == Bytes(text[..k]) + text[k].size
  {
    assert text[..k + 1] == text[..k] + [text[k]];
    BytesAppend(text[..k], [text[k]]);
    assert Bytes([text[k]]) == text[k].size + Bytes([]);
  }

  /** A byte offset between two clusters. */
  ghost predicate IsBoundary(text: seq<Cluster>, byte: nat) {
    exists k: nat :: k <= |text| && byte == Bytes(text[..k])
  }

  lemma {:induction false} BoundariesGrow(text: seq<Cluster>, j: nat, k: nat)
    requires j <= k <= |text|
    ensures Bytes(text[..j]) + (k - j) <= Bytes(text[..k])
    decreases k
  {
    if j < k {
      BoundariesGrow(text, j, k - 1);
      BytesSnoc(text, k - 1);
    }
  }

  lemma {:induction false} NoBoundaryInside(text: seq<Cluster>, k: nat, byte: nat)
    requires k < |text| && IsBoundary(text, byte)
    ensures byte <= Bytes(text[..k]) || byte >= Bytes(text[..k + 1])
  {
    var j: nat :| j <= |text| && byte == Bytes(text[..j]);
    if j <= k {
      BoundariesGrow(text, j, k);
    } else {
      BoundariesGrow(text, k + 1, j);
    }
  }
}
