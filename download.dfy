/** The two exports of src/lib/download.ts without the browser plumbing:
    the text `downloadCSS` puts in its file (one CSS custom property per
    swatch inside a `:root{...}` block) and the object `downloadJSON`
    serialises (the hex and RGB of every swatch of both palettes). */
module Download {
  import opened Types
  import opened ArrayOps

  predicate IsDigit(ch: char) {
    '0' <= ch <= '9'
  }

  function DigitChar(d: nat): char
    requires d < 10
  {
    "0123456789"[d]
  }

  function DigitValue(ch: char): nat
    requires IsDigit(ch)
  {
    ch as int - '0' as int
  }

  /** The text of a non-negative integer in a template string: its decimal
      digits, most significant first, without leading zeros. */
  function DecimalString(n: nat): (s: string)
    ensures |s| >= 1
    ensures forall i :: 0 <= i < |s| ==> IsDigit(s[i])
    ensures s[0] == '0' ==> n == 0
  {
    if n < 10 then [DigitChar(n)] else DecimalString(n / 10) + [DigitChar(n % 10)]
  }

  /** Reads a run of decimal digits back as a number. */
  function ParseDecimal(s: string): nat
    requires forall i :: 0 <= i < |s| ==> IsDigit(s[i])
  {
    if s == [] then 0 else ParseDecimal(s[..|s| - 1]) * 10 + DigitValue(s[|s| - 1])
  }

  lemma DigitCharValue(d: nat)
    requires d < 10
    ensures IsDigit(DigitChar(d)) && DigitValue(DigitChar(d)) == d
  {
  }

  lemma {:induction false} DecimalRoundTrip(n: nat)
    ensures ParseDecimal(DecimalString(n)) == n
  {
    if n >= 10 {
      DecimalRoundTrip(n / 10);
      var s := DecimalString(n);
      assert s[..|s| - 1] == DecimalString(n / 10);
      assert s[|s| - 1] == DigitChar(n % 10);
      DigitCharValue(n % 10);
      assert n == n / 10 * 10 + n % 10;
    } else {
      DigitCharValue(n);
    }
  }

  /** The custom-property line for the swatch numbered `n`: two spaces, `--palette-`, the number, a colon, a space, the hex and a semicolon. */
  function CssLine(n: nat, hex: string): string {
    "  --palette-" + DecimalString(n) + ": " + hex + ";"
  }

  /** The lines of the swatches of `main`, numbered from `from` on. */
  function Numbered(main: seq<Swatch>, from: nat): (lines: seq<string>)
    ensures |lines| == |main|
    decreases |main|
  {
    if main == [] then [] else [CssLine(from, main[0].hex)] + Numbered(main[1..], from + 1)
  }

  /** One custom-property line per swatch, numbered from `from`. */
  function CssLines(main: seq<Swatch>): seq<string> {
    Numbered(main, 1)
  }

  /** The line at index `i` is `  --palette-(i+1): <hex>;` with the
      swatch's hex verbatim. */
  lemma {:induction false} NumberedAt(main: seq<Swatch>, from: nat, i: nat)
    requires i < |main|
    ensures Numbered(main, from)[i] == "  --palette-" + DecimalString(from + i) + ": " + main[i].hex + ";"
    decreases |main|
  {
    if i > 0 {
      NumberedAt(main[1..], from + 1, i - 1);
    }
  }

  lemma CssLinesAt(main: seq<Swatch>, i: nat)
    requires i < |main|
    ensures CssLines(main)[i] == "  --palette-" + DecimalString(i + 1) + ": " + main[i].hex + ";"
  {
    NumberedAt(main, 1, i);
  }

  /** `Array.prototype.join`: the elements with the separator between
      consecutive ones; the empty list gives the empty text. */
  function Join(lines: seq<string>, sep: string): string {
    if |lines| == 0 then ""
    else if |lines| == 1 then lines[0]
    else lines[0] + sep + Join(lines[1..], sep)
  }

  /** The whole text of the CSS file: `:root{`, a newline, the lines joined by newlines, a newline, `}` and a final newline. */
  function CssText(main: seq<Swatch>): string {
    ":root{\n" + Join(CssLines(main), "\n") + "\n}\n"
  }

  predicate NoNewline(s: string) {
    forall i :: 0 <= i < |s| ==> s[i] != '\n'
  }

  /** The hexes the engine produces never contain a line break. */
  predicate HexesOnOneLine(main: seq<Swatch>) {
    forall i :: 0 <= i < |main| ==> NoNewline(main[i].hex)
  }

  /** `String.prototype.split('\n')`: the pieces between line breaks; the
      empty text gives one empty piece. */
  function SplitLines(s: string): (r: seq<string>)
    ensures |r| >= 1
  {
    if s == [] then [[]]
    else
      var rest := SplitLines(s[1..]);
      if s[0] == '\n' then [[]] + rest else [[s[0]] + rest[0]] + rest[1..]
  }

  lemma {:induction false} SplitNoNewline(a: string)
    requires NoNewline(a)
    ensures SplitLines(a) == [a]
  {
    if a != [] {
      SplitNoNewline(a[1..]);
      assert [a[0]] + a[1..] == a;
    }
  }

  /** A line break after a piece without one ends that piece. */
  lemma {:induction false} SplitAfterPiece(a: string, b: string)
    requires NoNewline(a)
    ensures SplitLines(a + "\n" + b) == [a] + SplitLines(b)
  {
    if a == [] {
      assert a + "\n" + b == "\n" + b;
      assert ("\n" + b)[1..] == b;
    } else {
      SplitAfterPiece(a[1..], b);
      assert (a + "\n" + b)[1..] == a[1..] + "\n" + b;
      assert [a[0]] + a[1..] == a;
    }
  }

  /** Splitting a joined list followed by more text gives the list back first. */
  lemma {:induction false} SplitJoined(lines: seq<string>, b: string)
    requires |lines| >= 1
    requires forall i :: 0 <= i < |lines| ==> NoNewline(lines[i])
    ensures SplitLines(Join(lines, "\n") + "\n" + b) == lines + SplitLines(b)
  {
    if |lines| == 1 {
      SplitAfterPiece(lines[0], b);
    } else {
      var rest := lines[1..];
      var tail := Join(rest, "\n") + "\n" + b;
      SplitJoined(rest, b);
      JoinCons(lines, b);
      SplitAfterPiece(lines[0], tail);
      assert lines == [lines[0]] + rest;
      SeqAssoc([lines[0]], rest, SplitLines(b));
    }
  }

  lemma SeqAssoc<T>(a: seq<T>, b: seq<T>, c: seq<T>)
    ensures a + (b + c) == (a + b) + c
  {
  }

  lemma JoinCons(lines: seq<string>, b: string)
    requires |lines| >= 2
    ensures Join(lines, "\n") + "\n" + b == lines[0] + "\n" + (Join(lines[1..], "\n") + "\n" + b)
  {
    var j := Join(lines[1..], "\n");
    assert Join(lines, "\n") == lines[0] + "\n" + j;
  }

  lemma CssLineNoNewline(n: nat, hex: string)
    requires NoNewline(hex)
    ensures NoNewline(CssLine(n, hex))
  {
    var d := DecimalString(n);
    var line := CssLine(n, hex);
    assert forall i :: 0 <= i < |line| ==>
      line[i] == (if i < 12 then "  --palette-"[i]
                  else if i < 12 + |d| then d[i - 12]
                  else if i < 14 + |d| then ": "[i - 12 - |d|]
                  else if i < 14 + |d| + |hex| then hex[i - 14 - |d|]
                  else ';');
  }

  /** An empty palette gives an empty `:root` block. */
  lemma CssTextEmpty()
    ensures CssText([]) == ":root{\n\n}\n"
  {
    assert CssLines([]) == [];
  }

  lemma LinesOnOneLine(main: seq<Swatch>)
    requires HexesOnOneLine(main)
    ensures forall i :: 0 <= i < |CssLines(main)| ==> NoNewline(CssLines(main)[i])
  {
    forall i | 0 <= i < |CssLines(main)|
      ensures NoNewline(CssLines(main)[i])
    {
      CssLinesAt(main, i);
      CssLineNoNewline(i + 1, main[i].hex);
    }
  }

  lemma SplitClosing()
    ensures SplitLines("}\n") == ["}", ""]
  {
    assert SplitLines("") == [""];
    SplitAfterPiece("}", "");
    assert "}" + "\n" + "" == "}\n";
  }

  /** The file, read as lines, is `:root{`, then exactly one line per swatch
      in palette order (see `CssLinesAt` for their text), then `}` and the
      empty piece after the final line break. */
  lemma CssTextLines(main: seq<Swatch>)
    requires HexesOnOneLine(main)
    ensures |main| == 0 ==> SplitLines(CssText(main)) == [":root{", "", "}", ""]
    ensures |main| > 0 ==> SplitLines(CssText(main)) == [":root{"] + CssLines(main) + ["}", ""]
  {
    SplitClosing();
    var lines := CssLines(main);
    var j := Join(lines, "\n");
    assert CssText(main) == ":root{" + "\n" + (j + "\n" + "}\n");
    if |main| == 0 {
      assert j == "";
      SplitAfterPiece("", "}\n");
      assert "" + "\n" + "}\n" == j + "\n" + "}\n";
      SplitAfterPiece(":root{", j + "\n" + "}\n");
    } else {
      LinesOnOneLine(main);
      SplitJoined(lines, "}\n");
      SplitAfterPiece(":root{", j + "\n" + "}\n");
    }
  }

  /** The length of the run of digits a text starts with. */
  function DigitRun(s: string): (k: nat)
    ensures k <= |s|
    ensures forall i :: 0 <= i < k ==> IsDigit(s[i])
  {
    if s == [] || !IsDigit(s[0]) then 0 else 1 + DigitRun(s[1..])
  }

  lemma {:induction false} DigitRunOf(d: string, t: string)
    requires forall i :: 0 <= i < |d| ==> IsDigit(d[i])
    requires t != [] && !IsDigit(t[0])
    ensures DigitRun(d + t) == |d|
  {
    if d != [] {
      DigitRunOf(d[1..], t);
      assert (d + t)[1..] == d[1..] + t;
    }
  }

  const LinePrefix: string := "  --palette-"

  /** Reads one variable line back: its number and its value. */
  function ParseCssLine(line: string): Option<(nat, string)> {
    if |line| < |LinePrefix| || line[..|LinePrefix|] != LinePrefix then None
    else
      var rest := line[|LinePrefix|..];
      var k := DigitRun(rest);
      var after := rest[k..];
      if k == 0 || |after| < 3 || after[..2] != ": " || after[|after| - 1] != ';' then None
      else Some((ParseDecimal(rest[..k]), after[2..|after| - 1]))
  }

  /** Every line `downloadCSS` writes reads back as its number and its hex. */
  lemma CssLineRoundTrip(n: nat, hex: string)
    ensures ParseCssLine(CssLine(n, hex)) == Some((n, hex))
  {
    var d := DecimalString(n);
    var line := CssLine(n, hex);
    var rest := d + ": " + hex + ";";
    assert line == LinePrefix + rest;
    assert line[..|LinePrefix|] == LinePrefix;
    assert line[|LinePrefix|..] == rest;
    DigitRunOf(d, ": " + hex + ";");
    assert rest == d + (": " + hex + ";");
    assert rest[..|d|] == d;
    var after := rest[|d|..];
    assert after == ": " + hex + ";";
    assert after[..2] == ": ";
    assert after[2..|after| - 1] == hex;
    DecimalRoundTrip(n);
  }

  /** Reads the variable lines back, checking that they are numbered
      `from`, `from + 1`, ...; gives their values in order. */
  function ParseCssLines(lines: seq<string>, from: nat): Option<seq<string>>
    decreases |lines|
  {
    if lines == [] then Some([])
    else match ParseCssLine(lines[0]) {
      case None => None
      case Some(entry) =>
        if entry.0 != from then None
        else match ParseCssLines(lines[1..], from + 1) {
          case None => None
          case Some(hexes) => Some([entry.1] + hexes)
        }
    }
  }

  /** The hex of every swatch, in palette order. */
  function Hexes(main: seq<Swatch>): (hs: seq<string>)
    ensures |hs| == |main|
    decreases |main|
  {
    if main == [] then [] else [main[0].hex] + Hexes(main[1..])
  }

  lemma {:induction false} HexesAt(main: seq<Swatch>, i: nat)
    requires i < |main|
    ensures Hexes(main)[i] == main[i].hex
    decreases |main|
  {
    if i > 0 {
      HexesAt(main[1..], i - 1);
    }
  }

  /** Reads a whole CSS file back as the list of hexes it declares. */
  function ParseCss(text: string): Option<seq<string>> {
    var head, tail := ":root{\n", "\n}\n";
    if |text| < |head| + |tail| || text[..|head|] != head || text[|text| - |tail|..] != tail then None
    else
      var body := text[|head|..|text| - |tail|];
      if body == "" then Some([]) else ParseCssLines(SplitLines(body), 1)
  }

  lemma {:induction false} ParseCssLinesRoundTrip(main: seq<Swatch>, from: nat)
    ensures ParseCssLines(Numbered(main, from), from) == Some(Hexes(main))
    decreases |main|
  {
    if main != [] {
      var lines := Numbered(main, from);
      CssLineRoundTrip(from, main[0].hex);
      ParseCssLinesRoundTrip(main[1..], from + 1);
      assert lines[0] == CssLine(from, main[0].hex);
      assert lines[1..] == Numbered(main[1..], from + 1);
    }
  }

  /** The CSS text determines the palette's hexes: reading it back gives
      exactly the hexes, in order, whenever none of them breaks a line. */
  lemma CssTextRoundTrip(main: seq<Swatch>)
    requires HexesOnOneLine(main)
    ensures ParseCss(CssText(main)) == Some(Hexes(main))
  {
    var text := CssText(main);
    var lines := CssLines(main);
    var body := Join(lines, "\n");
    assert text[..7] == ":root{\n";
    assert text[|text| - 3..] == "\n}\n";
    assert text[7..|text| - 3] == body;
    if main == [] {
      assert lines == [];
    } else {
      assert body != "" by {
        CssLinesAt(main, 0);
        if |lines| > 1 {
          assert body == lines[0] + "\n" + Join(lines[1..], "\n");
        }
      }
      LinesOnOneLine(main);
      JoinSplit(lines);
      ParseCssLinesRoundTrip(main, 1);
    }
  }

  /** Without a trailing break, a joined list of single lines splits back. */
  lemma JoinSplit(lines: seq<string>)
    requires |lines| >= 1
    requires forall i :: 0 <= i < |lines| ==> NoNewline(lines[i])
    ensures SplitLines(Join(lines, "\n")) == lines
  {
    if |lines| == 1 {
      SplitNoNewline(lines[0]);
    } else {
      var rest := lines[1..];
      JoinSplit(rest);
      SplitAfterPiece(lines[0], Join(rest, "\n"));
      assert [lines[0]] + rest == lines;
    }
  }

  /** The entry written for one swatch: its hex and its rgb. */
  datatype ColorEntry = ColorEntry(hex: string, rgb: RGB)

  /** The object `downloadJSON` serialises; the timestamp is the caller's
      clock reading as `toISOString` text. */
  datatype ExportData = ExportData(mainColors: seq<ColorEntry>, antiColors: seq<ColorEntry>, timestamp: string)

  function Entries(p: seq<Swatch>): seq<ColorEntry> {
    Map((c: Swatch) => ColorEntry(c.hex, c.rgb), p)
  }

  function JsonData(main: seq<Swatch>, anti: seq<Swatch>, timestamp: string): ExportData {
    ExportData(Entries(main), Entries(anti), timestamp)
  }

  /** Both colour lists keep the length and order of their palettes and
      copy exactly each swatch's hex and RGB. */
  lemma JsonDataCopies(main: seq<Swatch>, anti: seq<Swatch>, timestamp: string)
    ensures var d := JsonData(main, anti, timestamp);
      && |d.mainColors| == |main| && |d.antiColors| == |anti|
      && (forall i :: 0 <= i < |main| ==> d.mainColors[i].hex == main[i].hex && d.mainColors[i].rgb == main[i].rgb)
      && (forall i :: 0 <= i < |anti| ==> d.antiColors[i].hex == anti[i].hex && d.antiColors[i].rgb == anti[i].rgb)
      && d.timestamp == timestamp
  {
  }

  /** The swatches a colour list describes. */
  function ToSwatches(es: seq<ColorEntry>): seq<Swatch> {
    Map((e: ColorEntry) => Swatch(e.rgb, e.hex), es)
  }

  /** Nothing of a swatch is lost in the export: both palettes come back
      from the data exactly. */
  lemma JsonDataRoundTrip(main: seq<Swatch>, anti: seq<Swatch>, timestamp: string)
    ensures ToSwatches(JsonData(main, anti, timestamp).mainColors) == main
    ensures ToSwatches(JsonData(main, anti, timestamp).antiColors) == anti
  {
    var d := JsonData(main, anti, timestamp);
    assert forall i :: 0 <= i < |main| ==> ToSwatches(d.mainColors)[i] == main[i];
    assert forall i :: 0 <= i < |anti| ==> ToSwatches(d.antiColors)[i] == anti[i];
  }
}
