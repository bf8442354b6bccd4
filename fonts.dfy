/** The digit font of the image viewer: sixteen 14 x 7 black-and-white glyphs
    (the ten digits, then '.', 'e', '+', '-', space and the terminator) copied
    into one 14 x 7 x 16 image array, and the mapping from the characters of a
    formatted number to glyph codes. */
module Fonts2D {

  const Rows := 14
  const Cols := 7
  const Glyphs := 16

  // arr_2d_0, viewer/fonts_2D.h:26
  const Glyph0: seq<seq<int>> :=
    [ [0, 0, 0, 0, 0, 0, 0],
      [0, 0, 1, 1, 1, 1, 0],
      [0, 1, 1, 1, 1, 1, 1],
      [0, 1, 1, 0, 0, 1, 1],
      [0, 1, 0, 0, 0, 1, 1],
      [0, 1, 0, 0, 1, 0, 1],
      [0, 1, 0, 0, 1, 0, 1],
      [0, 1, 0, 1, 1, 0, 1],
      [0, 1, 0, 1, 0, 0, 1],
      [0, 1, 0, 1, 0, 0, 1],
      [0, 1, 1, 0, 0, 1, 1],
      [0, 1, 1, 1, 1, 1, 1],
      [0, 0, 1, 1, 1, 1, 0],
      [0, 0, 0, 0, 0, 0, 0] ]

  // arr_2d_1, viewer/fonts_2D.h:46
  const Glyph1: seq<seq<int>> :=
    [ [0, 0, 0, 0, 0, 0, 0],
      [0, 1, 1, 1, 0, 0, 0],
      [0, 1, 1, 1, 0, 0, 0],
      [0, 0, 0, 1, 0, 0, 0],
      [0, 0, 0, 1, 0, 0, 0],
      [0, 0, 0, 1, 0, 0, 0],
      [0, 0, 0, 1, 0, 0, 0],
      [0, 0, 0, 1, 0, 0, 0],
      [0, 0, 0, 1, 0, 0, 0],
      [0, 0, 0, 1, 0, 0, 0],
      [0, 0, 0, 1, 0, 0, 0],
      [0, 1, 1, 1, 1, 1, 0],
      [0, 1, 1, 1, 1, 1, 0],
      [0, 0, 0, 0, 0, 0, 0] ]

  // arr_2d_2, viewer/fonts_2D.h:66
  const Glyph2: seq<seq<int>> :=
    [ [0, 0, 0, 0, 0, 0, 0],
      [0, 0, 0, 1, 1, 0, 0],
      [0, 0, 1, 1, 1, 1, 0],
      [0, 1, 1, 0, 0, 1, 1],
      [0, 1, 0, 0, 0, 1, 1],
      [0, 0, 0, 0, 0, 1, 1],
      [0, 0, 0, 0, 1, 1, 0],
      [0, 0, 0, 0, 1, 1, 0],
      [0, 0, 0, 1, 1, 0, 0],
      [0, 0, 0, 1, 1, 0, 0],
      [0, 0, 1, 1, 0, 0, 0],
      [0, 0, 1, 1, 1, 1, 1],
      [0, 1, 1, 1, 1, 1, 1],
      [0, 0, 0, 0, 0, 0, 0] ]

  // arr_2d_3, viewer/fonts_2D.h:86
  const Glyph3: seq<seq<int>> :=
    [ [0, 0, 0, 0, 0, 0, 0],
      [0, 0, 0, 1, 1, 0, 0],
      [0, 0, 1, 1, 1, 1, 0],
      [0, 1, 1, 0, 0, 1, 1],
      [0, 1, 0, 0, 0, 1, 1],
      [0, 0, 0, 0, 0, 1, 1],
      [0, 0, 0, 0, 1, 1, 0],
      [0, 0, 0, 1, 1, 1, 0],
      [0, 0, 0, 0, 0, 1, 1],
      [0, 0, 0, 0, 0, 1, 1],
      [0, 1, 0, 0, 0, 1, 1],
      [0, 1, 1, 1, 1, 1, 0],
      [0, 0, 1, 1, 1, 0, 0],
      [0, 0, 0, 0, 0, 0, 0] ]

  // arr_2d_4, viewer/fonts_2D.h:106
  const Glyph4: seq<seq<int>> :=
    [ [0, 0, 0, 0, 0, 0, 0],
      [0, 0, 0, 0, 0, 1, 0],
      [0, 0, 0, 0, 1, 1, 0],
      [0, 0, 0, 0, 1, 1, 0],
      [0, 0, 0, 1, 1, 1, 0],
      [0, 0, 0, 1, 0, 1, 0],
      [0, 0, 1, 1, 0, 1, 0],
      [0, 0, 1, 0, 0, 1, 0],
      [0, 1, 1, 0, 0, 1, 0],
      [0, 1, 1, 1, 1, 1, 1],
      [0, 0, 0, 0, 0, 1, 0],
      [0, 0, 0, 0, 0, 1, 0],
      [0, 0, 0, 0, 0, 1, 0],
      [0, 0, 0, 0, 0, 0, 0] ]

  // arr_2d_5, viewer/fonts_2D.h:126
  const Glyph5: seq<seq<int>> :=
    [ [0, 0, 0, 0, 0, 0, 0],
      [0, 1, 1, 1, 1, 1, 0],
      [0, 1, 1, 1, 1, 1, 0],
      [0, 1, 0, 0, 0, 0, 0],
      [0, 1, 0, 0, 0, 0, 0],
      [0, 1, 0, 0, 0, 0, 0],
      [0, 1, 1, 1, 1, 1, 0],
      [0, 1, 1, 1, 1, 1, 1],
      [0, 0, 0, 0, 0, 1, 1],
      [0, 0, 0, 0, 0, 0, 1],
      [0, 1, 1, 0, 0, 0, 1],
      [0, 1, 1, 1, 1, 1, 1],
      [0, 0, 1, 1, 1, 1, 0],
      [0, 0, 0, 0, 0, 0, 0] ]

  // arr_2d_6, viewer/fonts_2D.h:146
  const Glyph6: seq<seq<int>> :=
    [ [0, 0, 0, 0, 0, 0, 0],
      [0, 0, 0, 1, 1, 0, 0],
      [0, 0, 1, 1, 1, 1, 0],
      [0, 1, 1, 0, 0, 1, 1],
      [0, 1, 1, 0, 0, 0, 0],
      [0, 1, 1, 0, 0, 0, 0],
      [0, 1, 1, 1, 1, 1, 0],
      [0, 1, 1, 1, 1, 1, 1],
      [0, 1, 1, 0, 0, 1, 1],
      [0, 1, 1, 0, 0, 0, 1],
      [0, 1, 1, 0, 0, 0, 1],
      [0, 1, 1, 1, 1, 1, 1],
      [0, 0, 1, 1, 1, 1, 0],
      [0, 0, 0, 0, 0, 0, 0] ]

  // arr_2d_7, viewer/fonts_2D.h:166
  const Glyph7: seq<seq<int>> :=
    [ [0, 0, 0, 0, 0, 0, 0],
      [0, 1, 1, 1, 1, 1, 1],
      [0, 1, 1, 1, 1, 1, 1],
      [0, 0, 0, 0, 0, 1, 1],
      [0, 0, 0, 0, 0, 1, 1],
      [0, 0, 0, 0, 0, 1, 1],
      [0, 0, 0, 0, 1, 1, 0],
      [0, 0, 0, 0, 1, 1, 0],
      [0, 0, 0, 1, 1, 0, 0],
      [0, 0, 0, 1, 1, 0, 0],
      [0, 0, 1, 1, 0, 0, 0],
      [0, 0, 1, 1, 0, 0, 0],
      [0, 1, 1, 0, 0, 0, 0],
      [0, 0, 0, 0, 0, 0, 0] ]

  // arr_2d_8, viewer/fonts_2D.h:186
  const Glyph8: seq<seq<int>> :=
    [ [0, 0, 0, 0, 0, 0, 0],
      [0, 0, 0, 1, 1, 0, 0],
      [0, 0, 1, 1, 1, 1, 0],
      [0, 1, 1, 0, 0, 1, 1],
      [0, 1, 1, 0, 0, 1, 1],
      [0, 1, 1, 0, 0, 1, 1],
      [0, 0, 1, 1, 1, 1, 0],
      [0, 0, 1, 1, 1, 1, 0],
      [0, 1, 1, 0, 0, 1, 1],
      [0, 1, 1, 0, 0, 1, 1],
      [0, 1, 1, 0, 0, 1, 1],
      [0, 0, 1, 1, 1, 1, 0],
      [0, 0, 0, 1, 1, 0, 0],
      [0, 0, 0, 0, 0, 0, 0] ]

  // arr_2d_9, viewer/fonts_2D.h:206
  const Glyph9: seq<seq<int>> :=
    [ [0, 0, 0, 0, 0, 0, 0],
      [0, 0, 0, 1, 1, 0, 0],
      [0, 0, 1, 1, 1, 1, 0],
      [0, 1, 1, 0, 0, 1, 1],
      [0, 1, 1, 0, 0, 1, 1],
      [0, 1, 1, 0, 0, 1, 1],
      [0, 1, 1, 1, 1, 1, 1],
      [0, 0, 1, 1, 1, 1, 1],
      [0, 0, 0, 0, 0, 1, 1],
      [0, 0, 0, 0, 0, 1, 1],
      [0, 0, 0, 0, 1, 1, 0],
      [0, 1, 1, 1, 1, 1, 0],
      [0, 0, 1, 1, 1, 0, 0],
      [0, 0, 0, 0, 0, 0, 0] ]

  // arr_2d_point, viewer/fonts_2D.h:226
  const GlyphPoint: seq<seq<int>> :=
    [ [0, 0, 0, 0, 0, 0, 0],
      [0, 0, 0, 0, 0, 0, 0],
      [0, 0, 0, 0, 0, 0, 0],
      [0, 0, 0, 0, 0, 0, 0],
      [0, 0, 0, 0, 0, 0, 0],
      [0, 0, 0, 0, 0, 0, 0],
      [0, 0, 0, 0, 0, 0, 0],
      [0, 0, 0, 0, 0, 0, 0],
      [0, 0, 0, 0, 0, 0, 0],
      [0, 0, 0, 1, 1, 0, 0],
      [0, 0, 0, 1, 1, 0, 0],
      [0, 0, 0, 1, 1, 0, 0],
      [0, 0, 0, 0, 0, 0, 0],
      [0, 0, 0, 0, 0, 0, 0] ]

  // arr_2d_e, viewer/fonts_2D.h:246
  const GlyphE: seq<seq<int>> :=
    [ [0, 0, 0, 0, 0, 0, 0],
      [0, 0, 0, 0, 0, 0, 0],
      [0, 0, 1, 1, 1, 1, 0],
      [0, 1, 1, 1, 1, 1, 1],
      [0, 1, 1, 0, 0, 1, 1],
      [0, 1, 1, 0, 0, 1, 1],
      [0, 1, 1, 1, 1, 1, 1],
      [0, 1, 1, 1, 1, 1, 0],
      [0, 1, 1, 0, 0, 0, 0],
      [0, 1, 1, 0, 0, 0, 0],
      [0, 1, 1, 1, 0, 1, 1],
      [0, 0, 1, 1, 1, 1, 0],
      [0, 0, 0, 1, 1, 0, 0],
      [0, 0, 0, 0, 0, 0, 0] ]

  // arr_2d_plus, viewer/fonts_2D.h:266
  const GlyphPlus: seq<seq<int>> :=
    [ [0, 0, 0, 0, 0, 0, 0],
      [0, 0, 0, 1, 0, 0, 0],
      [0, 0, 0, 1, 0, 0, 0],
      [0, 0, 0, 1, 0, 0, 0],
      [0, 0, 0, 1, 0, 0, 0],
      [0, 0, 0, 1, 0, 0, 0],
      [0, 1, 1, 1, 1, 1, 0],
      [0, 1, 1, 1, 1, 1, 0],
      [0, 0, 0, 1, 0, 0, 0],
      [0, 0, 0, 1, 0, 0, 0],
      [0, 0, 0, 1, 0, 0, 0],
      [0, 0, 0, 1, 0, 0, 0],
      [0, 0, 0, 1, 0, 0, 0],
      [0, 0, 0, 0, 0, 0, 0] ]

  // arr_2d_minus, viewer/fonts_2D.h:286
  const GlyphMinus: seq<seq<int>> :=
    [ [0, 0, 0, 0, 0, 0, 0],
      [0, 0, 0, 0, 0, 0, 0],
      [0, 0, 0, 0, 0, 0, 0],
      [0, 0, 0, 0, 0, 0, 0],
      [0, 0, 0, 0, 0, 0, 0],
      [0, 0, 0, 0, 0, 0, 0],
      [0, 1, 1, 1, 1, 1, 0],
      [0, 1, 1, 1, 1, 1, 0],
      [0, 0, 0, 0, 0, 0, 0],
      [0, 0, 0, 0, 0, 0, 0],
      [0, 0, 0, 0, 0, 0, 0],
      [0, 0, 0, 0, 0, 0, 0],
      [0, 0, 0, 0, 0, 0, 0],
      [0, 0, 0, 0, 0, 0, 0] ]

  // arr_2d_space, viewer/fonts_2D.h:306
  const GlyphSpace: seq<seq<int>> :=
    [ [0, 0, 0, 0, 0, 0, 0],
      [0, 0, 0, 0, 0, 0, 0],
      [0, 0, 0, 0, 0, 0, 0],
      [0, 0, 0, 0, 0, 0, 0],
      [0, 0, 0, 0, 0, 0, 0],
      [0, 0, 0, 0, 0, 0, 0],
      [0, 0, 0, 0, 0, 0, 0],
      [0, 0, 0, 0, 0, 0, 0],
      [0, 0, 0, 0, 0, 0, 0],
      [0, 0, 0, 0, 0, 0, 0],
      [0, 0, 0, 0, 0, 0, 0],
      [0, 0, 0, 0, 0, 0, 0],
      [0, 0, 0, 0, 0, 0, 0],
      [0, 0, 0, 0, 0, 0, 0] ]

  // arr_2d_null, viewer/fonts_2D.h:326
  const GlyphNull: seq<seq<int>> :=
    [ [0, 0, 0, 0, 0, 0, 0],
      [0, 0, 0, 0, 0, 0, 0],
      [0, 0, 0, 0, 0, 0, 0],
      [0, 0, 0, 0, 0, 0, 0],
      [0, 0, 0, 0, 0, 0, 0],
      [0, 0, 0, 0, 0, 0, 0],
      [0, 0, 0, 0, 0, 0, 0],
      [0, 0, 0, 0, 0, 0, 0],
      [0, 0, 0, 0, 0, 0, 0],
      [0, 0, 0, 0, 0, 0, 0],
      [0, 0, 0, 0, 0, 0, 0],
      [0, 0, 0, 0, 0, 0, 0],
      [0, 0, 0, 0, 0, 0, 0],
      [0, 0, 0, 0, 0, 0, 0] ]

  /** Glyph table number g, in the order get_font_img_array stores them. */
  function Glyph(g: nat): (t: seq<seq<int>>)
    requires g < Glyphs
    ensures |t| == Rows && forall row :: 0 <= row < Rows ==> |t[row]| == Cols
  {
    match g
    case 0 => Glyph0
    case 1 => Glyph1
    case 2 => Glyph2
    case 3 => Glyph3
    case 4 => Glyph4
    case 5 => Glyph5
    case 6 => Glyph6
    case 7 => Glyph7
    case 8 => Glyph8
    case 9 => Glyph9
    case 10 => GlyphPoint
    case 11 => GlyphE
    case 12 => GlyphPlus
    case 13 => GlyphMinus
    case 14 => GlyphSpace
    case _ => GlyphNull
  }

  /** The space glyph and the terminator glyph are blank. */
  lemma BlankGlyphs(row: nat, col: nat)
    requires row < Rows && col < Cols
    ensures Glyph(14)[row][col] == 0 && Glyph(15)[row][col] == 0
  {
  }

  /** get_font_img_array: stores entry [row][col] of glyph table g at
      font_bw_img[row][col][g], column by column and, inside a column, row by
      row, for the sixteen tables in turn; the error code it returns is 0. */
  method GetFontImgArray(fontBwImg: array3<int>) returns (errCod: int)
    requires fontBwImg.Length0 == Rows && fontBwImg.Length1 == Cols && fontBwImg.Length2 == Glyphs
    modifies fontBwImg
    ensures errCod == 0
    ensures forall row, col, g :: 0 <= row < Rows && 0 <= col < Cols && 0 <= g < Glyphs ==>
      fontBwImg[row, col, g] == Glyph(g)[row][col]
  {
    errCod := 0;
    for g := 0 to Glyphs
      invariant forall row, col, h :: 0 <= row < Rows && 0 <= col < Cols && 0 <= h < g ==>
        fontBwImg[row, col, h] == Glyph(h)[row][col]
    {
      StoreGlyph(fontBwImg, g);
    }
  }

  /** The body of get_font_img_array's outer loop: table g, column by column
      and row by row, into layer g; the other layers stay as they were. */
  method StoreGlyph(fontBwImg: array3<int>, g: nat)
    requires fontBwImg.Length0 == Rows && fontBwImg.Length1 == Cols && fontBwImg.Length2 == Glyphs && g < Glyphs
    modifies fontBwImg
    ensures forall row, col :: 0 <= row < Rows && 0 <= col < Cols ==> fontBwImg[row, col, g] == Glyph(g)[row][col]
    ensures forall row, col, h :: 0 <= row < Rows && 0 <= col < Cols && 0 <= h < Glyphs && h != g ==>
      fontBwImg[row, col, h] == old(fontBwImg[row, col, h])
  {
    var table := Glyph(g);
    for col := 0 to Cols
      invariant forall row, c, h :: 0 <= row < Rows && 0 <= c < Cols && 0 <= h < Glyphs && h != g ==>
        fontBwImg[row, c, h] == old(fontBwImg[row, c, h])
      invariant forall row, c :: 0 <= row < Rows && 0 <= c < col ==> fontBwImg[row, c, g] == table[row][c]
    {
      for row := 0 to Rows
        invariant forall r, c, h :: 0 <= r < Rows && 0 <= c < Cols && 0 <= h < Glyphs && h != g ==>
          fontBwImg[r, c, h] == old(fontBwImg[r, c, h])
        invariant forall r, c :: 0 <= r < Rows && 0 <= c < col ==> fontBwImg[r, c, g] == table[r][c]
        invariant forall r :: 0 <= r < row ==> fontBwImg[r, col, g] == table[r][col]
      {
        fontBwImg[row, col, g] := table[row][col];
      }
    }
  }

  /** A C `char`, signed as on the usual targets. */
  newtype CChar = c: int | -128 <= c < 128

  /** The characters get_digits gives a glyph of its own, and the terminator. */
  const Point: CChar := 46
  const LowerE: CChar := 101
  const Plus: CChar := 43
  const Minus: CChar := 45
  const Space: CChar := 32
  const Nul: CChar := 0

  predicate IsDigitChar(c: CChar) { 48 <= c <= 57 }

  /** A character before the terminator that has no glyph: it raises error 1. */
  predicate IsOther(c: CChar)
  {
    !IsDigitChar(c) && c != Point && c != LowerE && c != Plus && c != Minus && c != Space && c != Nul
  }

  /** The code get_digits stores for one character: its digit value, or the
      glyph number of '.', 'e', '+', '-', space and NUL; any other character
      keeps the raw difference c - '0' that was stored first. */
  function DigitCode(c: CChar): (d: int)
    ensures IsDigitChar(c) ==> 0 <= d <= 9 && d == c as int - 48
    ensures !IsDigitChar(c) && !IsOther(c) ==> 10 <= d <= 15
    ensures IsOther(c) ==> d == c as int - 48 && (d < 0 || d > 9)
  {
    var d := c as int - 48;
    if 0 <= d <= 9 then d
    else if c == Point then 10
    else if c == LowerE then 11
    else if c == Plus then 12
    else if c == Minus then 13
    else if c == Space then 14
    else if c == Nul then 15
    else d
  }

  /** The fixed codes of the non-digit glyphs. */
  lemma SpecialCodes()
    ensures DigitCode(Point) == 10 && DigitCode(LowerE) == 11 && DigitCode(Plus) == 12
    ensures DigitCode(Minus) == 13 && DigitCode(Space) == 14 && DigitCode(Nul) == 15
  {
  }

  /** Number of character positions get_digits reads and writes. */
  const Scanned := 13

  /** The error code get_digits returns for a buffer: 2 when no terminator
      occurs among the scanned positions; otherwise 1 when a character without
      a glyph occurs before the first terminator, and 0 if none does. */
  function DigitsError(ascStr: seq<CChar>): (err: int)
    requires |ascStr| >= Scanned
    ensures err == 0 || err == 1 || err == 2
    ensures err == 2 <==> forall i :: 0 <= i < Scanned ==> ascStr[i] != Nul
  {
    if forall i :: 0 <= i < Scanned ==> ascStr[i] != Nul then 2
    else if exists i :: 0 <= i < Scanned && IsOther(ascStr[i]) && forall j :: 0 <= j < i ==> ascStr[j] != Nul then 1
    else 0
  }

  /** get_digits, with the text of snprintf("%g") given as the 15-character
      buffer: writes the code of each of the first 13 characters into dgt_num
      (the last two entries are untouched) and returns the error code. */
  method GetDigits(ascStr: seq<CChar>, dgtNum: array<int>) returns (errCod: int)
    requires |ascStr| == 15 && dgtNum.Length == 15
    modifies dgtNum
    ensures forall i :: 0 <= i < Scanned ==> dgtNum[i] == DigitCode(ascStr[i])
    ensures dgtNum[13] == old(dgtNum[13]) && dgtNum[14] == old(dgtNum[14])
    ensures errCod == DigitsError(ascStr)
  {
    errCod := 0;
    var endReached := false;
    for i := 0 to Scanned
      invariant forall p :: 0 <= p < i ==> dgtNum[p] == DigitCode(ascStr[p])
      invariant dgtNum[13] == old(dgtNum[13]) && dgtNum[14] == old(dgtNum[14])
      invariant endReached <==> exists p :: 0 <= p < i && ascStr[p] == Nul
      invariant errCod == 0 || errCod == 1
      invariant errCod == 1 <==> exists p :: 0 <= p < i && IsOther(ascStr[p]) && forall q :: 0 <= q < p ==> ascStr[q] != Nul
    {
      var c := ascStr[i];
      dgtNum[i] := c as int - 48;
      if dgtNum[i] < 0 || dgtNum[i] > 9 {
        if c == Point {
          dgtNum[i] := 10;
        } else if c == LowerE {
          dgtNum[i] := 11;
        } else if c == Plus {
          dgtNum[i] := 12;
        } else if c == Minus {
          dgtNum[i] := 13;
        } else if c == Space {
          dgtNum[i] := 14;
        } else if c == Nul {
          dgtNum[i] := 15;
          endReached := true;
        } else {
          if !endReached {
            errCod := 1;
          }
        }
      }
    }
    if !endReached {
      errCod := 2;
    }
  }

  /** When a terminator is found, the error code is 0 or 1, and 1 exactly when
      an unconvertible character precedes the first terminator. */
  lemma {:induction false} ErrorOneBeforeTerminator(ascStr: seq<CChar>, t: nat)
    requires |ascStr| >= Scanned && t < Scanned && ascStr[t] == Nul
    requires forall j :: 0 <= j < t ==> ascStr[j] != Nul
    ensures DigitsError(ascStr) == 1 <==> exists i :: 0 <= i < t && IsOther(ascStr[i])
    ensures DigitsError(ascStr) != 2
  {
    if exists i :: 0 <= i < t && IsOther(ascStr[i]) {
      var i :| 0 <= i < t && IsOther(ascStr[i]);
      assert forall j :: 0 <= j < i ==> ascStr[j] != Nul;
    }
    if DigitsError(ascStr) == 1 {
      var i :| 0 <= i < Scanned && IsOther(ascStr[i]) && forall j :: 0 <= j < i ==> ascStr[j] != Nul;
      assert i < t;
    }
  }
}
