/** The colour palette helpers of the dashboard (src/ChatUI.jsx): scanning a
    reply for hexadecimal colour codes, merging extracted colours into a
    list without repeating known ones, and the CSS custom-property text the
    palette is exported as. */
module Palette {
  import opened Text
  import opened Seqs

  // ------------------------------------------------------------ scanning

  /** `#` followed by six or by three hexadecimal digits. */
  predicate IsColorToken(t: string) {
    (|t| == 7 || |t| == 4) && t[0] == '#' && AllHex(t[1..])
  }

  /** `n` hexadecimal digits start at position `i` of `s`. */
  predicate HexRun(s: string, i: nat, n: nat) {
    i + n <= |s| && forall j :: i <= j < i + n ==> IsHexDigit(s[j])
  }

  /** The length of the match of `/#([A-Fa-f0-9]{6}|[A-Fa-f0-9]{3})/` at
      the start of `s`, or 0: the six-digit alternative is tried first. */
  function TokenLength(s: string): (n: nat)
    ensures n == 0 || n == 4 || n == 7
    ensures n > 0 ==> n <= |s| && IsColorToken(s[..n])
    ensures n == 0 <==> s == [] || s[0] != '#' || !HexRun(s, 1, 3)
  {
    if s == [] || s[0] != '#' then 0
    else if HexRun(s, 1, 6) then 7
    else if HexRun(s, 1, 3) then 4
    else 0
  }

  /** `text.match(/#([A-Fa-f0-9]{6}|[A-Fa-f0-9]{3})/g) || []`: the tokens
      from left to right, the search resuming behind each token found. */
  function HexTokens(s: string): (ts: seq<string>)
    ensures forall i :: 0 <= i < |ts| ==> IsColorToken(ts[i])
    decreases |s|
  {
    if s == [] then []
    else
      var n := TokenLength(s);
      if n > 0 then [s[..n]] + HexTokens(s[n..]) else HexTokens(s[1..])
  }

  /** `extractColorPalette`: the colour codes of the text, or the current
      palette when there are none. */
  function ExtractColorPalette(text: string, current: seq<string>): (r: seq<string>)
    ensures r == current || (r != [] && forall i :: 0 <= i < |r| ==> IsColorToken(r[i]))
    ensures current != [] ==> r != []
  {
    var ts := HexTokens(text);
    if |ts| > 0 then ts else current
  }

  predicate HashFree(s: string) {
    forall i :: 0 <= i < |s| ==> s[i] != '#'
  }

  /** Text without `#` contributes no token and does not disturb the tokens
      behind it. */
  lemma {:induction false} HashFreeNoTokens(a: string, b: string)
    requires HashFree(a)
    ensures HexTokens(a + b) == HexTokens(b)
    decreases |a|
  {
    if a == [] {
      assert a + b == b;
    } else {
      assert (a + b)[0] == a[0];
      assert TokenLength(a + b) == 0;
      assert (a + b)[1..] == a[1..] + b;
      HashFreeNoTokens(a[1..], b);
    }
  }

  /** A well-formed colour code is found whole, provided a three-digit code
      is not followed by a further digit. */
  lemma TokenFirst(t: string, b: string)
    requires IsColorToken(t)
    requires |t| == 4 ==> b == [] || !IsHexDigit(b[0])
    ensures HexTokens(t + b) == [t] + HexTokens(b)
  {
    var s := t + b;
    assert s[0] == '#';
    forall j | 1 <= j < |t| ensures IsHexDigit(s[j]) {
      assert s[j] == t[1..][j - 1];
    }
    if |t| == 4 {
      assert !HexRun(s, 1, 6) by {
        if |s| >= 7 {
          assert s[4] == b[0];
        }
      }
    }
    assert TokenLength(s) == |t|;
    assert s[..|t|] == t && s[|t|..] == b;
  }

  /** The text `#12345` yields the three-digit code `#123`: six digits are
      not available, and the remaining `45` holds no `#`. */
  lemma ShortTokenExample()
    ensures HexTokens("#12345") == ["#123"]
  {
    var s := "#12345";
    assert !HexRun(s, 1, 6);
    assert HexRun(s, 1, 3);
    assert s[..4] == "#123" && s[4..] == "45";
    HashFreeNoTokens("45", []);
    assert "45" + [] == "45";
  }

  // ------------------------------------------------------------- merging

  /** `colors.filter(color => !prev.includes(color))`. */
  function NewColors(prev: seq<string>, colors: seq<string>): seq<string> {
    if colors == [] then []
    else (if colors[0] in prev then [] else [colors[0]]) + NewColors(prev, colors[1..])
  }

  /** `[...prev, ...newColors]`. */
  function MergeNew(prev: seq<string>, colors: seq<string>): (r: seq<string>)
    ensures prev <= r
  {
    prev + NewColors(prev, colors)
  }

  /** The appended colours are exactly the input colours not already known,
      each kept where it stood relative to the others. */
  lemma {:induction false} NewColorsSpec(prev: seq<string>, colors: seq<string>)
    ensures forall c :: c in NewColors(prev, colors) <==> c in colors && c !in prev
    ensures |NewColors(prev, colors)| <= |colors|
    decreases |colors|
  {
    if colors != [] {
      NewColorsSpec(prev, colors[1..]);
      assert colors == [colors[0]] + colors[1..];
    }
  }

  /** Filtering keeps the input order: the new colours of a concatenation
      are the new colours of each part, in turn. */
  lemma {:induction false} NewColorsConcat(prev: seq<string>, a: seq<string>, b: seq<string>)
    ensures NewColors(prev, a + b) == NewColors(prev, a) + NewColors(prev, b)
    decreases |a|
  {
    if a == [] {
      assert a + b == b;
    } else {
      var h := if a[0] in prev then [] else [a[0]];
      assert (a + b)[0] == a[0];
      assert (a + b)[1..] == a[1..] + b;
      NewColorsConcat(prev, a[1..], b);
      assert NewColors(prev, a + b) == h + (NewColors(prev, a[1..]) + NewColors(prev, b));
      Assoc(h, NewColors(prev, a[1..]), NewColors(prev, b));
    }
  }

  /** The merged list holds the old colours as a prefix and every input
      colour; merging the same colours again changes nothing. */
  lemma MergeNewSpec(prev: seq<string>, colors: seq<string>)
    ensures forall c :: c in MergeNew(prev, colors) <==> c in prev || c in colors
    ensures MergeNew(MergeNew(prev, colors), colors) == MergeNew(prev, colors)
  {
    NewColorsSpec(prev, colors);
    var r := MergeNew(prev, colors);
    NewColorsSpec(r, colors);
    NoNewColors(r, colors);
  }

  lemma {:induction false} NoNewColors(prev: seq<string>, colors: seq<string>)
    requires forall c :: c in colors ==> c in prev
    ensures NewColors(prev, colors) == []
    decreases |colors|
  {
    if colors != [] {
      assert colors[0] in colors;
      NoNewColors(prev, colors[1..]);
    }
  }

  /** Merging colours without repetitions into a list without repetitions
      yields a list without repetitions. */
  lemma MergeKeepsDistinct(prev: seq<string>, colors: seq<string>)
    requires Distinct(prev) && Distinct(colors)
    ensures Distinct(MergeNew(prev, colors))
  {
    NewColorsDistinct(prev, colors);
    NewColorsSpec(prev, colors);
    var n := NewColors(prev, colors);
    var r := prev + n;
    forall i, j | 0 <= i < j < |r| ensures r[i] != r[j] {
      if j >= |prev| && i < |prev| {
        assert r[j] == n[j - |prev|] && n[j - |prev|] in n;
      } else if i >= |prev| {
        assert r[i] == n[i - |prev|] && r[j] == n[j - |prev|];
      }
    }
  }

  lemma {:induction false} NewColorsDistinct(prev: seq<string>, colors: seq<string>)
    requires Distinct(colors)
    ensures Distinct(NewColors(prev, colors))
    decreases |colors|
  {
    if colors != [] {
      var rest := colors[1..];
      assert Distinct(rest);
      NewColorsDistinct(prev, rest);
      NewColorsSpec(prev, rest);
      assert colors[0] !in rest;
    }
  }

  // ----------------------------------------------------------- CSS text

  const CssHead: string := ":root {\n"
  const LinePrefix: string := "  --color-"
  const LineTail: string := ";\n"
  const Closer: string := "}"

  /** What precedes the colour on line `k`. */
  function LineHead(k: nat): string {
    LinePrefix + NatToDecimal(k) + ": "
  }

  /** `  --color-${k}: ${color};\n`. */
  function CssLine(k: nat, color: string): string {
    LineHead(k) + (color + LineTail)
  }

  /** The lines for `p`, numbered from `k`. */
  function CssLines(p: seq<string>, k: nat): string {
    if p == [] then "" else CssLine(k, p[0]) + CssLines(p[1..], k + 1)
  }

  /** The exported text: the `:root` rule with one custom property per
      colour, numbered from 1 in palette order. */
  function CssText(p: seq<string>): string {
    CssHead + (CssLines(p, 1) + Closer)
  }

  lemma {:induction false} CssLinesSnoc(p: seq<string>, c: string, k: nat)
    ensures CssLines(p + [c], k) == CssLines(p, k) + CssLine(k + |p|, c)
    decreases |p|
  {
    if p == [] {
      assert [c][1..] == [];
    } else {
      assert (p + [c])[0] == p[0];
      assert (p + [c])[1..] == p[1..] + [c];
      CssLinesSnoc(p[1..], c, k + 1);
    }
  }

  lemma HashFreeConcat(a: string, b: string)
    requires HashFree(a) && HashFree(b)
    ensures HashFree(a + b)
  {
  }

  lemma HashFreeDigits(k: nat)
    ensures HashFree(NatToDecimal(k))
  {
    var d := NatToDecimal(k);
    forall i | 0 <= i < |d| ensures d[i] != '#' {
      assert IsDecimalDigit(d[i]);
    }
  }

  lemma LineHeadHashFree(k: nat)
    ensures HashFree(LineHead(k))
  {
    HashFreeDigits(k);
    HashFreeConcat(LinePrefix, NatToDecimal(k));
    HashFreeConcat(LinePrefix + NatToDecimal(k), ": ");
  }

  /** A line of the export holds exactly its colour code. */
  lemma LineTokens(k: nat, c: string, rest: string)
    requires IsColorToken(c)
    ensures HexTokens(CssLine(k, c) + rest) == [c] + HexTokens(rest)
  {
    var head, tail := LineHead(k), LineTail;
    assert CssLine(k, c) == head + (c + tail);
    Assoc(head, c + tail, rest);
    Assoc(c, tail, rest);
    LineHeadHashFree(k);
    HashFreeNoTokens(head, c + (tail + rest));
    LineTailFacts();
    assert (tail + rest)[0] == tail[0];
    TokenFirst(c, tail + rest);
    HashFreeNoTokens(tail, rest);
  }

  lemma {:induction false} CssLinesTokens(p: seq<string>, k: nat, rest: string)
    requires forall i :: 0 <= i < |p| ==> IsColorToken(p[i])
    ensures HexTokens(CssLines(p, k) + rest) == p + HexTokens(rest)
    decreases |p|
  {
    if p != [] {
      var line, lines := CssLine(k, p[0]), CssLines(p[1..], k + 1);
      CssLinesTokens(p[1..], k + 1, rest);
      assert CssLines(p, k) == line + lines;
      Assoc(line, lines, rest);
      LineTokens(k, p[0], lines + rest);
      ConsSplit(p, HexTokens(rest));
    } else {
      assert CssLines(p, k) + rest == rest;
    }
  }

  /** Scanning an exported palette of colour codes for colour codes gives
      the palette back, in order. */
  lemma ExportThenExtract(p: seq<string>, current: seq<string>)
    requires p != [] && forall i :: 0 <= i < |p| ==> IsColorToken(p[i])
    ensures HexTokens(CssText(p)) == p
    ensures ExtractColorPalette(CssText(p), current) == p
  {
    var lines := CssLines(p, 1);
    CssLinesTokens(p, 1, Closer);
    CloserNoTokens();
    HeadHashFree();
    HashFreeNoTokens(CssHead, lines + Closer);
  }

  lemma LineTailFacts()
    ensures HashFree(LineTail) && |LineTail| > 0 && !IsHexDigit(LineTail[0])
  {
  }

  lemma HeadHashFree()
    ensures HashFree(CssHead)
  {
  }

  lemma CloserNoTokens()
    ensures HexTokens(Closer) == []
  {
    HashFreeNoTokens(Closer, []);
    assert Closer + [] == Closer;
  }

  /** The line for the colour at position `i` (from 0) follows the lines
      of the colours before it and names it with a numeral that reads back
      as `i + 1`. */
  lemma CssLineNumbering(p: seq<string>, i: nat)
    requires i < |p|
    ensures CssLines(p[..i + 1], 1) == CssLines(p[..i], 1) + CssLine(i + 1, p[i])
    ensures DecimalValue(NatToDecimal(i + 1)) == i + 1
  {
    assert p[..i + 1] == p[..i] + [p[i]];
    CssLinesSnoc(p[..i], p[i], 1);
    DecimalRoundTrip(i + 1);
  }
}
