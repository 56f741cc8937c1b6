/**
 The wrapping legend of utils/grid.py: TopLegendRenderer places one item after the other and starts
 a new line when the next item would not fit.
 */
module Legend {

  /** The text extents of one legend. */
  datatype Text = Text(width: real, height: real)

  /** The area of one item: its colour sample, its text and the padding around them. */
  datatype Box = Box(x: real, y: real, width: real, height: real)

  /** The running variables of layout and draw. */
  datatype Cursor = Cursor(lineUsed: real, lineHeight: real, totalHeight: real)

  function ItemWidth(padding: real, t: Text): real {
    padding + padding + t.width + padding
  }

  function ItemHeight(padding: real, t: Text): real {
    t.height + padding
  }

  function Advance(c: Cursor, padding: real, width: real, t: Text): Cursor {
    var w, h := ItemWidth(padding, t), ItemHeight(padding, t);
    var lineHeight := if h > c.lineHeight then h else c.lineHeight;
    if c.lineUsed + w > width then Cursor(padding + w, lineHeight, c.totalHeight + lineHeight)
    else Cursor(c.lineUsed + w, lineHeight, c.totalHeight)
  }

  /** The cursor after the first n items. */
  function CursorAt(padding: real, width: real, texts: seq<Text>, n: nat): Cursor
    requires n <= |texts|
  {
    if n == 0 then Cursor(padding, 0.0, padding)
    else Advance(CursorAt(padding, width, texts, n - 1), padding, width, texts[n - 1])
  }

  function BoxAt(padding: real, width: real, texts: seq<Text>, i: nat): Box
    requires i < |texts|
  {
    var c := CursorAt(padding, width, texts, i + 1);
    var w := ItemWidth(padding, texts[i]);
    Box(c.lineUsed - w, c.totalHeight, w, ItemHeight(padding, texts[i]))
  }

  function Height(padding: real, width: real, texts: seq<Text>): real {
    var c := CursorAt(padding, width, texts, |texts|);
    c.totalHeight + c.lineHeight
  }

  ghost predicate Sizes(padding: real, texts: seq<Text>) {
    0.0 <= padding && forall i :: 0 <= i < |texts| ==> 0.0 <= texts[i].width && 0.0 <= texts[i].height
  }

  /** A box lies left of the cursor on its line, or wholly above the line. */
  ghost predicate Behind(b: Box, c: Cursor) {
    && b.height <= c.lineHeight
    && ((b.y == c.totalHeight && b.x + b.width <= c.lineUsed) || b.y + b.height <= c.totalHeight)
  }

  ghost predicate Apart(a: Box, b: Box) {
    (a.y == b.y && a.x + a.width <= b.x) || a.y + a.height <= b.y
  }

  lemma {:induction false} AllBehind(padding: real, width: real, texts: seq<Text>, n: nat)
    requires Sizes(padding, texts) && n <= |texts|
    ensures forall i :: 0 <= i < n ==> Behind(BoxAt(padding, width, texts, i), CursorAt(padding, width, texts, n))
    ensures var c := CursorAt(padding, width, texts, n); padding <= c.lineUsed && 0.0 <= c.lineHeight
  {
    if n == 0 {
    } else {
      AllBehind(padding, width, texts, n - 1);
      var b, c := CursorAt(padding, width, texts, n - 1), CursorAt(padding, width, texts, n);
      forall i | 0 <= i < n - 1 ensures Behind(BoxAt(padding, width, texts, i), c) {
        assert Behind(BoxAt(padding, width, texts, i), b);
      }
    }
  }

  /** Items never overlap: an earlier one ends to the left on the same line, or above the line. */
  lemma ItemsApart(padding: real, width: real, texts: seq<Text>, i: nat, j: nat)
    requires Sizes(padding, texts) && i < j < |texts|
    ensures Apart(BoxAt(padding, width, texts, i), BoxAt(padding, width, texts, j))
  {
    AllBehind(padding, width, texts, j);
    assert Behind(BoxAt(padding, width, texts, i), CursorAt(padding, width, texts, j));
    var c := CursorAt(padding, width, texts, j);
    assert CursorAt(padding, width, texts, j + 1) == Advance(c, padding, width, texts[j]);
  }

  /** Everything that is drawn ends within the height that layout computes. */
  lemma ItemsWithinHeight(padding: real, width: real, texts: seq<Text>, i: nat)
    requires Sizes(padding, texts) && i < |texts|
    ensures var b := BoxAt(padding, width, texts, i); b.y + b.height <= Height(padding, width, texts)
  {
    AllBehind(padding, width, texts, |texts|);
    assert Behind(BoxAt(padding, width, texts, i), CursorAt(padding, width, texts, |texts|));
  }

  /** An item stays within the width exactly when it would on a line of its own. */
  lemma FitsIffFitsAlone(padding: real, width: real, texts: seq<Text>, i: nat)
    requires Sizes(padding, texts) && i < |texts|
    ensures var b := BoxAt(padding, width, texts, i);
      && padding <= b.x
      && (b.x + b.width <= width <==> padding + b.width <= width)
  {
    AllBehind(padding, width, texts, i);
  }

  // ----- where exactly the boxes are

  /** A box has room for its text, three paddings beside it and one above. */
  lemma RoomForText(padding: real, width: real, texts: seq<Text>, i: nat)
    requires i < |texts|
    ensures var b := BoxAt(padding, width, texts, i);
      b.width == 3.0 * padding + texts[i].width && b.height == padding + texts[i].height
  {}

  /** The largest of the heights of the first n items, lines above included. */
  ghost predicate Tallest(h: real, padding: real, texts: seq<Text>, n: nat)
    requires n <= |texts|
  {
    && h >= 0.0
    && (forall i :: 0 <= i < n ==> padding + texts[i].height <= h)
    && (h == 0.0 || exists i :: 0 <= i < n && padding + texts[i].height == h)
  }

  lemma {:induction false} LineHeightIsTallest(padding: real, width: real, texts: seq<Text>, n: nat)
    requires n <= |texts|
    ensures Tallest(CursorAt(padding, width, texts, n).lineHeight, padding, texts, n)
  {
    if n == 0 {
    } else {
      LineHeightIsTallest(padding, width, texts, n - 1);
      var h := CursorAt(padding, width, texts, n).lineHeight;
      assert h == ItemHeight(padding, texts[n - 1]) || h == CursorAt(padding, width, texts, n - 1).lineHeight;
    }
  }

  /** The first item starts at the left, on the second line if it is too wide. */
  lemma FirstBox(padding: real, width: real, texts: seq<Text>)
    requires texts != [] && Sizes(padding, texts)
    ensures var b := BoxAt(padding, width, texts, 0);
      b.x == padding && b.y == if padding + b.width <= width then padding else padding + b.height
  {
    assert CursorAt(padding, width, texts, 1) == Advance(CursorAt(padding, width, texts, 0), padding, width, texts[0]);
  }

  /** An item starts a line just if it does not fit behind the one before; the line is as far down as the tallest item so far. */
  lemma NextBox(padding: real, width: real, texts: seq<Text>, i: nat) returns (h: real)
    requires i + 1 < |texts|
    ensures Tallest(h, padding, texts, i + 2)
    ensures var a, b := BoxAt(padding, width, texts, i), BoxAt(padding, width, texts, i + 1);
      if a.x + a.width + b.width <= width then b.x == a.x + a.width && b.y == a.y
      else b.x == padding && b.y == a.y + h
  {
    var c := CursorAt(padding, width, texts, i + 1);
    assert CursorAt(padding, width, texts, i + 2) == Advance(c, padding, width, texts[i + 1]);
    h := CursorAt(padding, width, texts, i + 2).lineHeight;
    LineHeightIsTallest(padding, width, texts, i + 2);
  }

  /** Below the line of the last item the legend goes on for the tallest of all. */
  lemma HeightBelowLast(padding: real, width: real, texts: seq<Text>) returns (h: real)
    ensures Tallest(h, padding, texts, |texts|)
    ensures Height(padding, width, texts) ==
      if texts == [] then padding else BoxAt(padding, width, texts, |texts| - 1).y + h
  {
    h := CursorAt(padding, width, texts, |texts|).lineHeight;
    LineHeightIsTallest(padding, width, texts, |texts|);
  }

  class TopLegendRenderer {
    var padding: real
    var legends: seq<Text>
    var width: real
    var height: real

    constructor ()
      ensures padding == 10.0 && legends == []
    {
      padding, legends := 10.0, [];
      width, height := 0.0, 0.0;
    }

    method Layout(w: real)
      modifies this`width, this`height
      ensures width == w && height == Height(padding, w, legends)
    {
      width := w;
      var lineHeight, totalHeight, lineUsed := 0.0, padding, padding;
      for i := 0 to |legends|
        invariant width == w
        invariant Cursor(lineUsed, lineHeight, totalHeight) == CursorAt(padding, w, legends, i)
      {
        var itemWidth := padding + padding + legends[i].width + padding;
        var itemHeight := legends[i].height + padding;
        if itemHeight > lineHeight {
          lineHeight := itemHeight;
        }
        if lineUsed + itemWidth > width {
          lineUsed := padding + itemWidth;
          totalHeight := totalHeight + lineHeight;
        } else {
          lineUsed := lineUsed + itemWidth;
        }
      }
      totalHeight := totalHeight + lineHeight;
      height := totalHeight;
    }

    /** Places the items again, with the width that layout was given. */
    method Draw() returns (boxes: seq<Box>)
      ensures |boxes| == |legends|
      ensures forall i :: 0 <= i < |boxes| ==> boxes[i] == BoxAt(padding, width, legends, i)
    {
      boxes := [];
      var lineHeight, totalHeight, lineUsed := 0.0, padding, padding;
      for i := 0 to |legends|
        invariant Cursor(lineUsed, lineHeight, totalHeight) == CursorAt(padding, width, legends, i)
        invariant |boxes| == i && forall k :: 0 <= k < i ==> boxes[k] == BoxAt(padding, width, legends, k)
      {
        var itemWidth := padding + padding + legends[i].width + padding;
        var itemHeight := legends[i].height + padding;
        if itemHeight > lineHeight {
          lineHeight := itemHeight;
        }
        if lineUsed + itemWidth > width {
          lineUsed := padding + itemWidth;
          totalHeight := totalHeight + lineHeight;
        } else {
          lineUsed := lineUsed + itemWidth;
        }
        var x := lineUsed - itemWidth;
        boxes := boxes + [Box(x, totalHeight, itemWidth, itemHeight)];
      }
    }
  }
}
