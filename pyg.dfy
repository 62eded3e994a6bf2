/** The sprite-sheet helpers: where on a scaled, padded tile sheet each tile's
    pixels lie (remembered once cut out), and which characters the bitmap font
    can draw and with which tile. Pixels themselves are not modelled: a cut
    tile is the rectangle it came from and its rotation. */
module Pyg {

  /** A rectangle of sheet pixels: corner, width and height. */
  datatype Rect = Rect(x: int, y: int, w: int, h: int)

  /** What a tile is looked up by: its cell, its size in cells, its rotation. */
  datatype TileKey = TileKey(x: int, y: int, w: int, h: int, rot: int)

  /** A tile cut from the sheet: where from, and how it was rotated. */
  datatype Tile = Tile(source: Rect, rot: int)

  class TileSheet {
    /** Tile size and padding, in scaled pixels. */
    const tw: int
    const th: int
    const pad: int
    var cache: map<TileKey, Tile>

    /** The rectangle cell (x, y) covers, `w` by `h` cells: every cell is
        surrounded by `pad` pixels of padding on each side. */
    function Source(x: int, y: int, w: int, h: int): Rect
    {
      Rect(x * tw + (2 * x + 1) * pad, y * th + (2 * y + 1) * pad, tw * w, th * h)
    }

    /** Every remembered tile is the one its key describes. */
    ghost predicate Valid()
      reads this`cache
    {
      forall k :: k in cache ==> cache[k] == Tile(Source(k.x, k.y, k.w, k.h), k.rot)
    }

    /** A sheet drawn with `tw` by `th` tiles and `pad` pixels of padding,
        loaded at `scale` times its size. */
    constructor (tw: int, th: int, scale: int, pad: int)
      ensures this.tw == tw * scale && this.th == th * scale && this.pad == pad * scale
      ensures cache == map[] && Valid()
    {
      this.pad := pad * scale;
      this.tw, this.th := tw * scale, th * scale;
      cache := map[];
    }

    /** The tile at cell (x, y), `w` by `h` cells, rotated by `rot`: cut out
        and remembered the first time, taken from memory afterwards, so a
        second look-up leaves the memory as it was. */
    method GetAt(x: int, y: int, w: int, h: int, rot: int) returns (t: Tile)
      requires Valid()
      modifies this`cache
      ensures Valid() && t == Tile(Source(x, y, w, h), rot)
      ensures TileKey(x, y, w, h, rot) in old(cache) ==> cache == old(cache)
      ensures TileKey(x, y, w, h, rot) !in old(cache) ==> cache == old(cache)[TileKey(x, y, w, h, rot) := t]
    {
      var key := TileKey(x, y, w, h, rot);
      if key !in cache {
        cache := cache[key := Tile(Source(x, y, w, h), rot)];
      }
      t := cache[key];
    }

    /** The sheet is a grid of cells `tw + 2 pad` wide and `th + 2 pad`
        high, each tile inset by `pad`: neighbouring tiles never overlap and
        are `2 pad` pixels apart. */
    lemma SourceGrid(x: int, y: int)
      requires tw >= 0 && th >= 0 && pad >= 0
      ensures Source(x, y, 1, 1) == Rect(x * (tw + 2 * pad) + pad, y * (th + 2 * pad) + pad, tw, th)
      ensures Source(x + 1, y, 1, 1).x == Source(x, y, 1, 1).x + Source(x, y, 1, 1).w + 2 * pad
      ensures Source(x, y + 1, 1, 1).y == Source(x, y, 1, 1).y + Source(x, y, 1, 1).h + 2 * pad
    {
      assert x * tw + (2 * x + 1) * pad == x * (tw + 2 * pad) + pad;
      assert y * th + (2 * y + 1) * pad == y * (th + 2 * pad) + pad;
      assert (x + 1) * (tw + 2 * pad) == x * (tw + 2 * pad) + tw + 2 * pad;
      assert (y + 1) * (th + 2 * pad) == y * (th + 2 * pad) + th + 2 * pad;
    }
  }

  // ---------------------------------------------------------------------
  // The bitmap font

  /** The characters the font has, in sheet order: 16 to a row. */
  const KEY: string := "ABCDEFGHIJKLMNOPQRSTUVWXYZ .0123456789-?"

  /** Upper case, for the ASCII letters. */
  function Upper(c: char): (r: char)
    ensures 'a' <= c <= 'z' ==> 'A' <= r <= 'Z' && r as int == c as int - 32
    ensures !('a' <= c <= 'z') ==> r == c
  {
    if 'a' <= c <= 'z' then (c as int - 32) as char else c
  }

  /** The characters of KEY, by range. */
  predicate InFont(c: char)
  {
    'A' <= c <= 'Z' || c == ' ' || c == '.' || '0' <= c <= '9' || c == '-' || c == '?'
  }

  /** The place of a font character in KEY. */
  function FontIndex(c: char): (r: nat)
    requires InFont(c)
    ensures r < |KEY|
  {
    if 'A' <= c <= 'Z' then c as int - 'A' as int
    else if c == ' ' then 26
    else if c == '.' then 27
    else if '0' <= c <= '9' then 28 + (c as int - '0' as int)
    else if c == '-' then 38
    else 39
  }

  /** Each character of KEY is a font character, and FontIndex gives its
      place back: KEY holds each font character once. */
  lemma KeyInFont(k: int)
    requires 0 <= k < |KEY|
    ensures InFont(KEY[k]) && FontIndex(KEY[k]) == k
  {
  }

  /** Every font character is in KEY, at its FontIndex. */
  lemma FontInKey(c: char)
    requires InFont(c)
    ensures KEY[FontIndex(c)] == c
  {
    var i := FontIndex(c);
    if 'A' <= c <= 'Z' {
      assert KEY[..26] == "ABCDEFGHIJKLMNOPQRSTUVWXYZ";
      assert KEY[i] == KEY[..26][i];
    } else if '0' <= c <= '9' {
      assert KEY[28..38] == "0123456789";
      assert KEY[i] == KEY[28..38][i - 28];
    }
  }

  /** The font has a character exactly when KEY holds it. */
  lemma InFontIsInKey(c: char)
    ensures InFont(c) <==> c in KEY
  {
    if c in KEY {
      var k :| 0 <= k < |KEY| && KEY[k] == c;
      KeyInFont(k);
    }
    if InFont(c) {
      FontInKey(c);
    }
  }

  /** What the font draws of `text`: each character upper-cased, kept when
      the font has it. */
  function Filtered(text: string): (r: string)
    ensures |r| <= |text|
    ensures forall i :: 0 <= i < |r| ==> InFont(r[i])
    decreases |text|
  {
    if text == [] then ""
    else (if InFont(Upper(text[0])) then [Upper(text[0])] else "") + Filtered(text[1..])
  }

  /** Filtering works character by character, in order. */
  lemma {:induction false} FilteredConcat(a: string, b: string)
    ensures Filtered(a + b) == Filtered(a) + Filtered(b)
    decreases |a|
  {
    if a != [] {
      assert (a + b)[1..] == a[1..] + b;
      FilteredConcat(a[1..], b);
    } else {
      assert a + b == b;
    }
  }

  /** A single character is kept, upper-cased, exactly when KEY holds its
      upper case. */
  lemma FilteredChar(c: char)
    ensures Filtered([c]) == if Upper(c) in KEY then [Upper(c)] else []
  {
    assert [c][1..] == [];
    InFontIsInKey(Upper(c));
  }

  /** The sheet cell of a character: its place in KEY, 16 to a row, eight
      rows further down for the dark variant. */
  function GlyphCell(c: char, dark: bool): (r: (int, int))
    requires InFont(c)
    ensures 0 <= r.0 < 16
    ensures (if dark then 8 else 0) <= r.1 < (if dark then 8 else 0) + 3
  {
    var i := FontIndex(c);
    (i % 16, i / 16 + (if dark then 8 else 0))
  }

  /** The cell gives the character back. */
  lemma GlyphCellNamesChar(c: char, dark: bool)
    requires InFont(c)
    ensures var cell := GlyphCell(c, dark);
      KEY[(cell.1 - (if dark then 8 else 0)) * 16 + cell.0] == c
  {
    var i := FontIndex(c);
    var d := if dark then 8 else 0;
    var cell := GlyphCell(c, dark);
    var j := (cell.1 - d) * 16 + cell.0;
    assert j == i by {
      assert (i / 16) * 16 + i % 16 == i;
    }
    FontInKey(c);
    assert KEY[j] == c;
  }

  /** A glyph drawn onto the text's surface: at pixel column `x`, the tile. */
  datatype Blit = Blit(x: int, tile: Tile)

  /** A rendered text: its size in pixels and the glyphs drawn on it. */
  datatype Surface = Surface(width: int, height: int, blits: seq<Blit>)

  class BMPFont {
    const sheet: TileSheet

    constructor (tw: int, th: int, scale: int, pad: int)
      ensures fresh(sheet) && sheet.Valid() && sheet.cache == map[]
      ensures sheet.tw == tw * scale && sheet.th == th * scale && sheet.pad == pad * scale
    {
      sheet := new TileSheet(tw, th, scale, pad);
    }

    /** The `n`-th glyph of a text, showing `c`: one tile to the right per
        glyph, cut from the character's cell. */
    function Glyph(c: char, n: int, dark: bool): Blit
      requires InFont(c)
    {
      var cell := GlyphCell(c, dark);
      Blit(n * sheet.tw, Tile(sheet.Source(cell.0, cell.1, 1, 1), 0))
    }

    /** Draws `text`: the characters the font keeps, one tile wide each, in
        order from the left; the dark variant uses the tiles eight rows
        down. The sheet's memory only grows. */
    method Render(text: string, dark: bool) returns (s: Surface)
      requires sheet.Valid()
      modifies sheet`cache
      ensures sheet.Valid() && old(sheet.cache).Keys <= sheet.cache.Keys
      ensures s.width == |Filtered(text)| * sheet.tw && s.height == sheet.th
      ensures |s.blits| == |Filtered(text)|
      ensures forall n :: 0 <= n < |s.blits| ==> s.blits[n] == Glyph(Filtered(text)[n], n, dark)
    {
      var f := Filtered(text);
      var blits: seq<Blit> := [];
      var n := 0;
      while n < |f|
        invariant 0 <= n <= |f| && |blits| == n
        invariant sheet.Valid() && old(sheet.cache).Keys <= sheet.cache.Keys
        invariant forall m :: 0 <= m < n ==> blits[m] == Glyph(f[m], m, dark)
      {
        var i := FontIndex(f[n]);
        var t := sheet.GetAt(i % 16, i / 16 + (if dark then 8 else 0), 1, 1, 0);
        assert Blit(n * sheet.tw, t) == Glyph(f[n], n, dark);
        blits := blits + [Blit(n * sheet.tw, t)];
        n := n + 1;
      }
      s := Surface(|f| * sheet.tw, sheet.th, blits);
    }
  }
}
