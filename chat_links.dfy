/** `makeLinksClickable` (src/components/ChatArea.jsx): the global replace of
    `/<a\s+href="([^"]+)"(?![^>]*target=)/g` by
    `<a href="$1" target="_blank" rel="noopener noreferrer">$1</a>`.

    The pattern has no real choice points: `\s+` must stop at the `h` of
    `href`, and `[^"]+` must stop at the first quote, so whether a match
    starts at a position is decided by one left-to-right reading, which
    `Match` performs on the text from that position on. The replace tries
    the positions from left to right and, after a match, resumes right
    behind it. Only the matched header is replaced: whatever followed it in
    the original tag stays in place. */
module ChatLinks {
  import opened Text
  import opened ChatModel

  const TargetAttr: string := "target="
  const HrefOpen: string := "href=\""
  const AnchorOpen: string := "<a href=\""
  /** What the replacement puts between the two copies of the address: the
      closing quote, ` target=`, `"_blank"`, the `rel` attribute and `>`. */
  const AnchorTail: string := "\"" + (" target=" + ("\"" + AnchorRel))
  const AnchorRel: string := "_blank\" rel=\"noopener noreferrer\">"
  const AnchorClose: string := "</a>"

  /** A successful match: the captured address and the text behind the match. */
  datatype Header = Header(url: string, rest: string)

  /** One or more white-space characters (`\s+`). */
  predicate IsGap(ws: string) {
    |ws| >= 1 && IsBlank(ws)
  }

  /** What `[^"]+` can capture. */
  predicate IsUrl(u: string) {
    |u| >= 1 && '"' !in u
  }

  /** `<a`, the white space `ws` and `href="`: a header up to its address. */
  function HeaderLead(ws: string): string {
    "<a" + ws + HrefOpen
  }

  /** A header (`<a`, white space, `href="`, the address, `"`) followed by `r`. */
  function HeaderText(ws: string, u: string, r: string): string {
    HeaderLead(ws) + (u + ("\"" + r))
  }

  /** The replacement anchor for the address `u`, followed by `r`. */
  function AnchorText(u: string, r: string): string {
    AnchorOpen + (u + (AnchorTail + (u + (AnchorClose + r))))
  }

  /** The length of the run of white space that starts at position `i`. */
  function SpaceRun(w: string, i: nat): (n: nat)
    requires i <= |w|
    ensures i + n <= |w|
    decreases |w| - i
  {
    if i == |w| || !IsSpace(w[i]) then 0 else 1 + SpaceRun(w, i + 1)
  }

  /** The position of the first `"` at or after `i`, or `|w|` if there is none. */
  function QuoteAt(w: string, i: nat): (k: nat)
    requires i <= |w|
    ensures i <= k <= |w|
    decreases |w| - i
  {
    if i == |w| || w[i] == '"' then i else QuoteAt(w, i + 1)
  }

  /** `href="` stands at position `i`. */
  predicate HrefAt(w: string, i: nat) {
    && i + 6 <= |w|
    && w[i] == 'h' && w[i + 1] == 'r' && w[i + 2] == 'e' && w[i + 3] == 'f'
    && w[i + 4] == '=' && w[i + 5] == '"'
  }

  /** `target=` stands at position `q`. */
  predicate TargetAt(w: string, q: nat) {
    && q + 7 <= |w|
    && w[q] == 't' && w[q + 1] == 'a' && w[q + 2] == 'r' && w[q + 3] == 'g'
    && w[q + 4] == 'e' && w[q + 5] == 't' && w[q + 6] == '='
  }

  /** Whether `[^>]*target=` matches at position `i`, that is, whether the
      negative lookahead rejects a match whose closing quote is at `i - 1`. */
  function TargetFrom(w: string, i: nat): bool
    requires i <= |w|
    decreases |w| - i
  {
    if TargetAt(w, i) then true
    else if i == |w| || w[i] == '>' then false
    else TargetFrom(w, i + 1)
  }

  predicate TargetAhead(w: string) {
    TargetFrom(w, 0)
  }

  /** The pattern tried at the start of `w`. */
  function Match(w: string): (m: Option<Header>)
    ensures m.Some? ==> |m.value.rest| < |w|
  {
    if |w| < 2 || w[0] != '<' || w[1] != 'a' then None
    else
      var n := SpaceRun(w, 2);
      if n == 0 || !HrefAt(w, 2 + n) then None
      else
        var k := QuoteAt(w, 8 + n);
        if k == 8 + n || k == |w| || TargetFrom(w, k + 1) then None
        else Some(Header(w[8 + n..k], w[k + 1..]))
  }

  /** The global replace. */
  function MakeLinksClickable(s: string): string
    decreases |s|
  {
    if s == [] then []
    else
      match Match(s)
      case Some(h) => AnchorText(h.url, MakeLinksClickable(h.rest))
      case None => [s[0]] + MakeLinksClickable(s[1..])
  }

  /** The addresses the replace captures, in order. */
  function CapturedUrls(s: string): seq<string>
    decreases |s|
  {
    if s == [] then []
    else
      match Match(s)
      case Some(h) => [h.url] + CapturedUrls(h.rest)
      case None => CapturedUrls(s[1..])
  }

  /** No match starts at position `i` of `w`. */
  predicate UnmatchedAt(w: string, i: nat)
    requires i <= |w|
  {
    Match(w[i..]).None?
  }

  /** No position of `w` starts a match. */
  ghost predicate Unmatched(w: string) {
    forall i :: 0 <= i < |w| ==> UnmatchedAt(w, i)
  }

  /** No captured address contains `<`. */
  ghost predicate PlainUrls(s: string) {
    forall k :: 0 <= k < |CapturedUrls(s)| ==> '<' !in CapturedUrls(s)[k]
  }

  // ------------------------------------------------------------ scanning

  lemma {:induction false} SpaceRunSpec(w: string, i: nat)
    requires i <= |w|
    ensures forall m :: i <= m < i + SpaceRun(w, i) ==> IsSpace(w[m])
    ensures i + SpaceRun(w, i) < |w| ==> !IsSpace(w[i + SpaceRun(w, i)])
    decreases |w| - i
  {
    if i < |w| && IsSpace(w[i]) {
      SpaceRunSpec(w, i + 1);
    }
  }

  lemma {:induction false} SpaceRunIs(w: string, i: nat, j: nat)
    requires i <= j <= |w|
    requires forall m :: i <= m < j ==> IsSpace(w[m])
    requires j < |w| ==> !IsSpace(w[j])
    ensures SpaceRun(w, i) == j - i
    decreases j - i
  {
    if i < j {
      SpaceRunIs(w, i + 1, j);
    }
  }

  lemma {:induction false} QuoteAtSpec(w: string, i: nat)
    requires i <= |w|
    ensures forall m :: i <= m < QuoteAt(w, i) ==> w[m] != '"'
    ensures QuoteAt(w, i) < |w| ==> w[QuoteAt(w, i)] == '"'
    decreases |w| - i
  {
    if i < |w| && w[i] != '"' {
      QuoteAtSpec(w, i + 1);
    }
  }

  lemma {:induction false} QuoteAtIs(w: string, i: nat, j: nat)
    requires i <= j < |w| && w[j] == '"'
    requires forall m :: i <= m < j ==> w[m] != '"'
    ensures QuoteAt(w, i) == j
    decreases j - i
  {
    if i < j {
      QuoteAtIs(w, i + 1, j);
    }
  }

  /** A run of white space stops where a non-space character is appended. */
  lemma {:induction false} SpaceRunPrefix(x: string, y: string, i: nat)
    requires i <= |x| && y != [] && !IsSpace(y[0])
    ensures SpaceRun(x + y, i) == SpaceRun(x, i)
    decreases |x| - i
  {
    if i < |x| && IsSpace(x[i]) {
      SpaceRunPrefix(x, y, i + 1);
    }
  }

  lemma {:induction false} QuoteAtShift(x: string, y: string, j: nat)
    requires j <= |y|
    ensures QuoteAt(x + y, |x| + j) == |x| + QuoteAt(y, j)
    decreases |y| - j
  {
    if j < |y| && y[j] != '"' {
      QuoteAtShift(x, y, j + 1);
    }
  }

  lemma {:induction false} QuoteAtConcat(x: string, y: string, i: nat)
    requires i <= |x|
    ensures QuoteAt(x + y, i)
         == if QuoteAt(x, i) < |x| then QuoteAt(x, i) else |x| + QuoteAt(y, 0)
    decreases |x| - i
  {
    if i == |x| {
      QuoteAtShift(x, y, 0);
    } else if x[i] != '"' {
      QuoteAtConcat(x, y, i + 1);
    }
  }

  // ------------------------------------------------------------ the lookahead

  /** No `>` stands in `w` at or after position `i`. */
  predicate NoCloseFrom(w: string, i: nat) {
    forall m :: i <= m < |w| ==> w[m] != '>'
  }

  lemma {:induction false} TargetFromShift(x: string, y: string, j: nat)
    requires j <= |y|
    ensures TargetFrom(x + y, |x| + j) == TargetFrom(y, j)
    decreases |y| - j
  {
    assert TargetAt(x + y, |x| + j) == TargetAt(y, j);
    if j < |y| {
      TargetFromShift(x, y, j + 1);
    }
  }

  /** Splitting the lookahead's text where a character that cannot be part
      of `target=` stands. */
  lemma {:induction false} TargetFromConcat(x: string, y: string, i: nat)
    requires i <= |x| && y != [] && y[0] !in TargetAttr
    ensures TargetFrom(x + y, i) == (TargetFrom(x, i) || (NoCloseFrom(x, i) && TargetFrom(y, 0)))
    decreases |x| - i
  {
    if i == |x| {
      TargetFromShift(x, y, 0);
    } else {
      assert TargetAt(x + y, i) == TargetAt(x, i);
      TargetFromConcat(x, y, i + 1);
    }
  }

  /** Characters that are neither `t` nor `>` are passed over. */
  lemma {:induction false} TargetFromSkip(w: string, i: nat, j: nat)
    requires i <= j <= |w|
    requires forall m :: i <= m < j ==> w[m] != 't' && w[m] != '>'
    ensures TargetFrom(w, i) == TargetFrom(w, j)
    decreases j - i
  {
    if i < j {
      TargetFromSkip(w, i + 1, j);
    }
  }

  lemma {:induction false} TargetFromWitness(w: string, i: nat) returns (q: nat)
    requires i <= |w| && TargetFrom(w, i)
    ensures i <= q <= |w| && TargetAt(w, q)
    ensures forall m :: i <= m < q ==> w[m] != '>'
    decreases |w| - i
  {
    if TargetAt(w, i) {
      q := i;
    } else {
      q := TargetFromWitness(w, i + 1);
    }
  }

  lemma {:induction false} TargetFromOfWitness(w: string, i: nat, q: nat)
    requires i <= q <= |w| && TargetAt(w, q)
    requires forall m :: i <= m < q ==> w[m] != '>'
    ensures TargetFrom(w, i)
    decreases q - i
  {
    if i < q && !TargetAt(w, i) {
      TargetFromOfWitness(w, i + 1, q);
    }
  }

  /** `TargetAt` compares with the attribute name. */
  lemma TargetAtMeaning(w: string, q: nat)
    ensures TargetAt(w, q) <==> q + 7 <= |w| && w[q..q + 7] == TargetAttr
  {
    if q + 7 <= |w| && w[q..q + 7] == TargetAttr {
      var t := w[q..q + 7];
      assert forall i :: 0 <= i < 7 ==> t[i] == w[q + i];
    }
  }

  /** The lookahead succeeds exactly when `target=` occurs before any `>`. */
  lemma TargetAheadMeaning(w: string)
    ensures TargetAhead(w) <==>
            exists q :: 0 <= q <= |w| && TargetAt(w, q) && '>' !in w[..q]
  {
    if TargetAhead(w) {
      var q := TargetFromWitness(w, 0);
      assert '>' !in w[..q] by {
        forall c | c in w[..q] ensures c != '>' {
          var m :| 0 <= m < q && w[..q][m] == c;
        }
      }
    }
    if exists q :: 0 <= q <= |w| && TargetAt(w, q) && '>' !in w[..q] {
      var q :| 0 <= q <= |w| && TargetAt(w, q) && '>' !in w[..q];
      forall m | 0 <= m < q ensures w[m] != '>' {
        assert w[..q][m] == w[m];
      }
      TargetFromOfWitness(w, 0, q);
    }
  }

  /** The lookahead from the position of a quote reads on from the text behind it. */
  lemma TargetFromDrop(w: string, i: nat)
    requires i <= |w|
    ensures TargetFrom(w, i) == TargetFrom(w[i..], 0)
  {
    TargetFromShift(w[..i], w[i..], 0);
    assert w[..i] + w[i..] == w;
  }

  /** The attributes of the replacement anchor do contain `target=`. */
  lemma TailTargets(z: string)
    ensures var t := AnchorTail + z;
            |t| > 1 && t[0] == '"' && TargetFrom(t, 0) && TargetFrom(t, 1)
  {
    var t := AnchorTail + z;
    assert t[1] == ' ' && TargetAt(t, 2);
  }

  /** A lookahead that succeeds behind the address of a header also succeeds
      behind that address in the anchor. */
  lemma UrlTargets(u: string, r: string, z: string)
    requires IsUrl(u)
    ensures TargetAhead(u + ("\"" + r)) ==> TargetAhead(u + (AnchorTail + z))
  {
    assert '"' !in TargetAttr;
    TargetFromConcat(u, "\"" + r, 0);
    TargetFromConcat(u, AnchorTail + z, 0);
    TailTargets(z);
  }


  // ------------------------------------------------------------ one match

  /** `w` holds `p` from position `i` on. */
  ghost predicate Holds(w: string, i: nat, p: string) {
    i + |p| <= |w| && forall m :: 0 <= m < |p| ==> w[i + m] == p[m]
  }

  /** `w` begins with the lead of a header with the white space `ws`. */
  ghost predicate LeadShaped(w: string, ws: string) {
    && 8 + |ws| <= |w|
    && w[0] == '<' && w[1] == 'a'
    && Holds(w, 2, ws) && HrefAt(w, 2 + |ws|)
  }

  /** The characters of a header with the white space `ws` and the address `u`. */
  ghost predicate HeaderShaped(w: string, ws: string, u: string) {
    && LeadShaped(w, ws)
    && 9 + |ws| + |u| <= |w|
    && Holds(w, 8 + |ws|, u) && w[8 + |ws| + |u|] == '"'
  }

  lemma LeadChars(ws: string)
    ensures |HeaderLead(ws)| == 8 + |ws| && LeadShaped(HeaderLead(ws), ws)
  {
    var l := HeaderLead(ws);
    forall m | 0 <= m < |ws| ensures l[2 + m] == ws[m] {
      assert ("<a" + ws)[2 + m] == ws[m];
    }
  }

  lemma LeadExtends(l: string, ws: string, x: string)
    requires LeadShaped(l, ws)
    ensures LeadShaped(l + x, ws)
  {
    forall m | 0 <= m < |ws| ensures (l + x)[2 + m] == ws[m] {
      assert (l + x)[2 + m] == l[2 + m];
    }
  }

  lemma ShapeExtends(l: string, ws: string, u: string, r: string)
    requires |l| == 8 + |ws| && LeadShaped(l, ws)
    ensures HeaderShaped(l + (u + ("\"" + r)), ws, u)
  {
    var w := l + (u + ("\"" + r));
    LeadExtends(l, ws, u + ("\"" + r));
    forall m | 0 <= m < |u| ensures w[8 + |ws| + m] == u[m] {
    }
    assert w[8 + |ws| + |u|] == '"';
  }

  /** The characters of a header. */
  lemma HeaderShape(ws: string, u: string, r: string)
    ensures HeaderShaped(HeaderText(ws, u, r), ws, u)
    ensures |HeaderText(ws, u, r)| == 9 + |ws| + |u| + |r|
  {
    LeadChars(ws);
    ShapeExtends(HeaderLead(ws), ws, u, r);
  }

  /** The white space of a lead ends at `href="`. */
  lemma LeadSpace(w: string, ws: string)
    requires LeadShaped(w, ws) && IsGap(ws)
    ensures SpaceRun(w, 2) == |ws|
  {
    forall m | 2 <= m < 2 + |ws| ensures IsSpace(w[m]) {
      assert w[2 + (m - 2)] == ws[m - 2];
    }
    assert w[2 + |ws|] == 'h';
    SpaceRunIs(w, 2, 2 + |ws|);
  }

  /** Reading a header: its white space ends at `href="`, and its address at
      the next quote. */
  lemma ShapedScan(w: string, ws: string, u: string)
    requires HeaderShaped(w, ws, u) && IsGap(ws) && IsUrl(u)
    ensures SpaceRun(w, 2) == |ws| && QuoteAt(w, 8 + |ws|) == 8 + |ws| + |u|
  {
    LeadSpace(w, ws);
    forall m | 8 + |ws| <= m < 8 + |ws| + |u| ensures w[m] != '"' {
      assert w[8 + |ws| + (m - 8 - |ws|)] == u[m - 8 - |ws|];
      assert u[m - 8 - |ws|] in u;
    }
    QuoteAtIs(w, 8 + |ws|, 8 + |ws| + |u|);
  }

  /** A lead's only quote is that of `href="`, and it holds no `t`, no `>`
      and, past its first character, no `<`. */
  lemma ShapedLead(w: string, ws: string)
    requires LeadShaped(w, ws) && IsBlank(ws)
    ensures QuoteAt(w, 0) == 7 + |ws| && TargetFrom(w, 0) == TargetFrom(w, 8 + |ws|)
    ensures forall m :: 0 < m < 8 + |ws| ==> w[m] != '<'
  {
    forall m | 0 <= m < 8 + |ws|
      ensures w[m] != 't' && w[m] != '>' && (m != 7 + |ws| ==> w[m] != '"') && (m > 0 ==> w[m] != '<')
    {
      if 2 <= m < 2 + |ws| {
        assert w[2 + (m - 2)] == ws[m - 2];
        assert IsSpace(ws[m - 2]);
      }
    }
    QuoteAtIs(w, 0, 7 + |ws|);
    TargetFromSkip(w, 0, 8 + |ws|);
  }

  /** Behind a lead, the lookahead reads the text that follows it. */
  lemma LeadLookahead(l: string, ws: string, x: string)
    requires |l| == 8 + |ws| && LeadShaped(l, ws) && IsBlank(ws)
    ensures QuoteAt(l + x, 0) == 7 + |ws|
    ensures TargetFrom(l + x, 0) == TargetFrom(x, 0) && TargetFrom(l + x, 8 + |ws|) == TargetFrom(x, 0)
    ensures forall m :: 0 < m < 8 + |ws| ==> (l + x)[m] != '<'
  {
    LeadExtends(l, ws, x);
    ShapedLead(l + x, ws);
    TargetFromShift(l, x, 0);
  }

  /** A lead followed by an address and a quote behind which the lookahead
      finds `target=` starts no match. */
  lemma LeadRefused(l: string, ws: string, u: string, t: string)
    requires |l| == 8 + |ws| && LeadShaped(l, ws) && IsGap(ws) && IsUrl(u)
    requires t != [] && t[0] == '"' && TargetFrom(t, 1)
    ensures Refused(l + (u + t))
  {
    var w := l + (u + t);
    LeadExtends(l, ws, u + t);
    LeadSpace(w, ws);
    QuoteAfterUrl(u, t);
    QuoteAtShift(l, u + t, 0);
    TargetFromShift(u, t, 1);
    TargetFromShift(l, u + t, |u| + 1);
  }

  lemma QuoteAfterUrl(u: string, t: string)
    requires '"' !in u && t != [] && t[0] == '"'
    ensures QuoteAt(u + t, 0) == |u|
  {
    forall m | 0 <= m < |u| ensures (u + t)[m] != '"' {
      assert u[m] in u;
    }
    QuoteAtIs(u + t, 0, |u|);
  }

  /** Behind a lead come the address, the quote and the rest. */
  lemma Fields(l: string, u: string, r: string)
    ensures var w := l + (u + ("\"" + r));
            && w[|l|..|l| + |u|] == u && w[|l| + |u| + 1..] == r
            && TargetFrom(w, |l| + |u| + 1) == TargetFrom(r, 0)
  {
    var q := "\"";
    assert |q| == 1;
    Regroup2(u, q, r);
    assert u + (q + r) == (u + q) + r;
    Regroup2(l, u + q, r);
    assert l + (u + (q + r)) == (l + (u + q)) + r;
    DropFront(l + (u + q), r);
    ShiftedStart(l + (u + q), r, |l| + |u| + 1);
    MiddleSlice(l, u, q + r);
  }

  lemma ShiftedStart(p: string, r: string, i: nat)
    requires i == |p|
    ensures TargetFrom(p + r, i) == TargetFrom(r, 0)
  {
    TargetFromShift(p, r, 0);
  }

  lemma MiddleSlice(l: string, u: string, t: string)
    ensures (l + (u + t))[|l|..|l| + |u|] == u
  {
    var w := l + (u + t);
    forall m | 0 <= m < |u| ensures w[|l|..|l| + |u|][m] == u[m] {
      assert w[|l|..|l| + |u|][m] == w[|l| + m];
    }
  }

  /** The fields of a header: its address, the text behind it, and the
      lookahead there. */
  lemma HeaderFields(ws: string, u: string, r: string)
    ensures var w := HeaderText(ws, u, r);
            var k := 8 + |ws| + |u|;
            && k < |w| && w[8 + |ws|..k] == u && w[k + 1..] == r
            && TargetFrom(w, k + 1) == TargetAhead(r)
  {
    LeadChars(ws);
    Fields(HeaderLead(ws), u, r);
  }

  /** What `Match` returns once the white space and `href="` are read. */
  lemma MatchByParts(w: string, n: nat, k: nat)
    requires |w| >= 2 && w[0] == '<' && w[1] == 'a'
    requires SpaceRun(w, 2) == n && 0 < n && HrefAt(w, 2 + n) && QuoteAt(w, 8 + n) == k
    ensures Match(w) == if k == 8 + n || k == |w| || TargetFrom(w, k + 1) then None
                        else Some(Header(w[8 + n..k], w[k + 1..]))
  {
  }

  /** A header matches unless `target=` follows before the next `>`. */
  lemma MatchHeader(ws: string, u: string, r: string)
    requires IsGap(ws) && IsUrl(u)
    ensures Match(HeaderText(ws, u, r)) == if TargetAhead(r) then None else Some(Header(u, r))
  {
    HeaderShape(ws, u, r);
    HeaderFields(ws, u, r);
    ShapedMatch(HeaderText(ws, u, r), ws, u, r);
  }

  lemma ShapedMatch(w: string, ws: string, u: string, r: string)
    requires HeaderShaped(w, ws, u) && IsGap(ws) && IsUrl(u) && w[9 + |ws| + |u|..] == r
    ensures Match(w) == if TargetAhead(r) then None else Some(Header(u, r))
  {
    var k := 8 + |ws| + |u|;
    ShapedScan(w, ws, u);
    TargetFromDrop(w, k + 1);
    assert w[8 + |ws|..k] == u by {
      forall m | 0 <= m < |u| ensures w[8 + |ws|..k][m] == u[m] {
        assert w[8 + |ws|..k][m] == w[8 + |ws| + m];
      }
    }
    MatchByParts(w, |ws|, k);
  }

  /** What a match has read: `<a`, white space, `href="`, the address up to
      the first quote, and no `target=` before the next `>` behind it. */
  lemma MatchParts(w: string) returns (n: nat, k: nat)
    requires Match(w).Some?
    ensures |w| >= 2 && w[0] == '<' && w[1] == 'a'
    ensures n == SpaceRun(w, 2) && 0 < n && HrefAt(w, 2 + n)
    ensures k == QuoteAt(w, 8 + n) && 8 + n < k < |w| && !TargetFrom(w, k + 1)
    ensures Match(w).value == Header(w[8 + n..k], w[k + 1..])
  {
    n := SpaceRun(w, 2);
    k := QuoteAt(w, 8 + n);
  }

  lemma GapSlice(w: string, i: nat, j: nat)
    requires i < j <= |w| && forall m :: i <= m < j ==> IsSpace(w[m])
    ensures IsGap(w[i..j])
  {
    forall m | 0 <= m < j - i ensures IsSpace(w[i..j][m]) {
      assert w[i..j][m] == w[i + m];
    }
  }

  lemma UrlSlice(w: string, i: nat, k: nat)
    requires i < k <= |w| && forall m :: i <= m < k ==> w[m] != '"'
    ensures IsUrl(w[i..k])
  {
    forall m | 0 <= m < k - i ensures w[i..k][m] != '"' {
      assert w[i..k][m] == w[i + m];
    }
  }

  /** A match is exactly a header: `<a`, white space, `href="`, an address
      without quotes, a closing quote, and then text in which no `target=`
      comes before the next `>`. */
  lemma MatchSound(w: string)
    requires Match(w).Some?
    ensures var h := Match(w).value;
            && IsUrl(h.url) && !TargetAhead(h.rest)
            && exists ws :: IsGap(ws) && w == HeaderText(ws, h.url, h.rest)
  {
    var n, k := MatchParts(w);
    var h := Match(w).value;
    MatchFields(w, n, k);
    TargetFromDrop(w, k + 1);
    MatchShape(w, n, k);
    assert IsGap(w[2..2 + n]) && w == HeaderText(w[2..2 + n], h.url, h.rest);
  }

  lemma MatchFields(w: string, n: nat, k: nat)
    requires 2 <= |w| && n == SpaceRun(w, 2) && 0 < n && HrefAt(w, 2 + n)
    requires k == QuoteAt(w, 8 + n) && 8 + n < k < |w|
    ensures IsGap(w[2..2 + n]) && IsUrl(w[8 + n..k]) && w[k] == '"'
  {
    SpaceRunSpec(w, 2);
    QuoteAtSpec(w, 8 + n);
    GapSlice(w, 2, 2 + n);
    UrlSlice(w, 8 + n, k);
  }

  lemma MatchShape(w: string, n: nat, k: nat)
    requires |w| >= 2 && w[0] == '<' && w[1] == 'a' && HrefAt(w, 2 + n) && 8 + n <= k < |w| && w[k] == '"'
    ensures w == HeaderText(w[2..2 + n], w[8 + n..k], w[k + 1..])
  {
    LeadOf(w, n);
    Pieces(w, 8 + n, k);
    assert [w[k]] == "\"";
  }

  lemma LeadOf(w: string, n: nat)
    requires |w| >= 2 && w[0] == '<' && w[1] == 'a' && HrefAt(w, 2 + n)
    ensures w[..8 + n] == HeaderLead(w[2..2 + n])
  {
    OpenSlice(w);
    HrefSlice(w, 2 + n);
    Split3(w, 2, 2 + n, 8 + n);
  }

  lemma OpenSlice(w: string)
    requires |w| >= 2 && w[0] == '<' && w[1] == 'a'
    ensures w[..2] == "<a"
  {
  }

  lemma HrefSlice(w: string, i: nat)
    requires HrefAt(w, i)
    ensures w[i..i + 6] == HrefOpen
  {
  }

  lemma Split3(w: string, a: nat, b: nat, c: nat)
    requires a <= b <= c <= |w|
    ensures w[..c] == w[..a] + w[a..b] + w[b..c]
  {
  }

  lemma Pieces(w: string, i: nat, k: nat)
    requires i <= k < |w|
    ensures w == w[..i] + (w[i..k] + ([w[k]] + w[k + 1..]))
  {
  }

  lemma TailSplit(l: string, u: string, r: string)
    ensures l + (u + ("\"" + r)) == (l + (u + ("\"" + []))) + r
  {
  }

  lemma HeaderSplit(ws: string, u: string, r: string)
    ensures HeaderText(ws, u, r) == HeaderText(ws, u, []) + r
  {
    TailSplit(HeaderLead(ws), u, r);
  }

  lemma Regroup(a: string, b: string, c: string, d: string, e: string, r: string)
    ensures a + (b + (c + (d + (e + r)))) == (a + (b + (c + (d + e)))) + r
  {
  }

  lemma AnchorSplit(u: string, r: string)
    ensures AnchorText(u, r) == AnchorText(u, []) + r
  {
    Regroup(AnchorOpen, u, AnchorTail, u, AnchorClose, r);
    Regroup(AnchorOpen, u, AnchorTail, u, AnchorClose, []);
    assert AnchorClose + [] == AnchorClose;
  }

  /** The head of an anchor is the lead of a header with one blank. */
  lemma AnchorIsLead()
    ensures AnchorOpen == HeaderLead(" ")
  {
  }

  /** The replacement anchor is not matched again where it starts. */
  lemma AnchorNotRematched(u: string, r: string)
    requires IsUrl(u)
    ensures Match(AnchorText(u, r)).None?
  {
    var z := u + (AnchorClose + r);
    AnchorIsLead();
    LeadChars(" ");
    TailTargets(z);
    LeadRefused(AnchorOpen, " ", u, AnchorTail + z);
    RefusedMeansUnmatched(AnchorText(u, r));
  }

  // ------------------------------------------------------------ replacing

  /** `y2` may take the place of `y1` behind any text without creating a
      match that starts in that text: both begin with `<`, a quote comes in
      both, `y2` keeps every lookahead of `y1` that succeeds, and no match
      starts at `y2` itself. */
  ghost predicate Replaceable(y1: string, y2: string) {
    && |y1| >= 1 && |y2| >= 1 && y1[0] == '<' && y2[0] == '<'
    && QuoteAt(y1, 0) < |y1| && QuoteAt(y2, 0) < |y2|
    && (TargetFrom(y1, 0) ==> TargetFrom(y2, 0))
    && (TargetFrom(y1, QuoteAt(y1, 0) + 1) ==> TargetFrom(y2, QuoteAt(y2, 0) + 1))
    && Refused(y2)
  }

  /** Why no match starts at `w`: it does not open with `<a`, the white space
      or `href="` is missing, the address is empty or has no closing quote,
      or the lookahead finds `target=`. */
  ghost predicate Refused(w: string) {
    || |w| < 2 || w[0] != '<' || w[1] != 'a'
    || var n := SpaceRun(w, 2);
       || n == 0 || !HrefAt(w, 2 + n)
       || var k := QuoteAt(w, 8 + n);
          k == 8 + n || k == |w| || TargetFrom(w, k + 1)
  }

  lemma RefusedMeansUnmatched(w: string)
    ensures Match(w).None? <==> Refused(w)
  {
  }

  /** The part of `MatchStep` behind `<a`, white space and `href="`. */
  lemma QuoteStep(x: string, y1: string, y2: string, i: nat)
    requires Replaceable(y1, y2) && i <= |x|
    requires QuoteAt(x + y1, i) == i || QuoteAt(x + y1, i) == |x + y1| || TargetFrom(x + y1, QuoteAt(x + y1, i) + 1)
    ensures QuoteAt(x + y2, i) == i || QuoteAt(x + y2, i) == |x + y2| || TargetFrom(x + y2, QuoteAt(x + y2, i) + 1)
  {
    QuoteAtConcat(x, y1, i);
    QuoteAtConcat(x, y2, i);
    var q := QuoteAt(x, i);
    assert '<' !in TargetAttr;
    if q < |x| {
      TargetFromConcat(x, y1, q + 1);
      TargetFromConcat(x, y2, q + 1);
    } else {
      TargetFromShift(x, y1, QuoteAt(y1, 0) + 1);
      TargetFromShift(x, y2, QuoteAt(y2, 0) + 1);
    }
  }

  lemma MatchStep(x: string, y1: string, y2: string)
    requires Replaceable(y1, y2) && Match(x + y1).None?
    ensures Match(x + y2).None?
  {
    RefusedMeansUnmatched(x + y1);
    RefusedStep(x, y1, y2);
    RefusedMeansUnmatched(x + y2);
  }

  lemma RefusedStep(x: string, y1: string, y2: string)
    requires Replaceable(y1, y2) && Refused(x + y1)
    ensures Refused(x + y2)
  {
    if x == [] {
      assert x + y2 == y2;
    } else if |x| == 1 {
      assert (x + y2)[1] == '<';
    } else if x[0] == '<' && x[1] == 'a' {
      SpaceRunPrefix(x, y1, 2);
      SpaceRunPrefix(x, y2, 2);
      var n := SpaceRun(x, 2);
      assert (x + y1)[|x|] == '<' && (x + y2)[|x|] == '<';
      assert HrefAt(x + y1, 2 + n) == HrefAt(x + y2, 2 + n);
      if n > 0 && HrefAt(x + y2, 2 + n) {
        QuoteStep(x, y1, y2, 8 + n);
      }
    }
  }

  /** A header with its continuation may be replaced by an anchor with any
      continuation. */
  lemma HeaderReplaceable(ws: string, u: string, r: string, rr: string)
    requires IsGap(ws) && IsUrl(u)
    ensures Replaceable(HeaderText(ws, u, r), AnchorText(u, rr))
  {
    var z := u + (AnchorClose + rr);
    HeaderLookahead(ws, u, r);
    AnchorLookahead(u, z, rr);
    UrlTargets(u, r, z);
    AnchorNotRematched(u, rr);
    RefusedMeansUnmatched(AnchorText(u, rr));
  }

  /** The first quote of a header is that of `href="`, and the lookahead
      from the start or from behind that quote is the one at the address. */
  lemma HeaderLookahead(ws: string, u: string, r: string)
    requires IsGap(ws)
    ensures var y1 := HeaderText(ws, u, r);
            && QuoteAt(y1, 0) == 7 + |ws|
            && TargetFrom(y1, 0) == TargetAhead(u + ("\"" + r))
            && TargetFrom(y1, 8 + |ws|) == TargetAhead(u + ("\"" + r))
  {
    LeadChars(ws);
    LeadLookahead(HeaderLead(ws), ws, u + ("\"" + r));
  }

  lemma AnchorLookahead(u: string, z: string, rr: string)
    requires z == u + (AnchorClose + rr)
    ensures var y2 := AnchorText(u, rr);
            && QuoteAt(y2, 0) == 8
            && TargetFrom(y2, 0) == TargetAhead(u + (AnchorTail + z))
            && TargetFrom(y2, 9) == TargetAhead(u + (AnchorTail + z))
  {
    AnchorIsLead();
    LeadChars(" ");
    LeadLookahead(AnchorOpen, " ", u + (AnchorTail + z));
  }

  // ------------------------------------------------------------ shapes

  /** Text that does not start with `<a` starts no match. */
  lemma NoOpenNoMatch(w: string)
    requires |w| < 2 || w[0] != '<' || w[1] != 'a'
    ensures Match(w).None?
  {
  }

  /** Position `i` of `w` does not hold `<a`. */
  predicate NoOpenAt(w: string, i: nat) {
    i < |w| && (w[i] != '<' || i + 1 == |w| || w[i + 1] != 'a')
  }

  lemma NotOpenUnmatched(w: string, i: nat)
    requires NoOpenAt(w, i)
    ensures UnmatchedAt(w, i)
  {
    NoOpenNoMatch(w[i..]);
  }

  /** Inside an anchor whose address has no `<`, the only `<` is that of
      `</a>`, so no match starts there. */
  lemma AnchorInterior(u: string, rr: string, i: nat)
    requires '<' !in u && 0 < i < |AnchorText(u, [])|
    ensures UnmatchedAt(AnchorText(u, rr), i)
  {
    AnchorPieces();
    InteriorNoOpen(AnchorOpen, AnchorTail, AnchorClose, u, rr, i);
    NotOpenUnmatched(AnchorText(u, rr), i);
  }

  /** Where `<` stands in the pieces of an anchor. */
  lemma AnchorPieces()
    ensures |AnchorOpen| == 9 && AnchorOpen[0] == '<' && '<' !in AnchorOpen[1..]
    ensures |AnchorTail| == 44 && '<' !in AnchorTail
    ensures |AnchorClose| == 4 && AnchorClose[1] == '/' && '<' !in AnchorClose[1..]
  {
  }

  /** The same for any pieces `o`, `t` and `c` placed as in an anchor. */
  lemma InteriorNoOpen(o: string, t: string, c: string, u: string, rr: string, i: nat)
    requires |o| >= 1 && '<' !in o[1..] && '<' !in t && |c| >= 2 && c[1] == '/' && '<' !in c[1..] && '<' !in u
    requires 0 < i < |o| + |u| + |t| + |u| + |c|
    ensures NoOpenAt(o + (u + (t + (u + (c + rr)))), i)
  {
    var w := o + (u + (t + (u + (c + rr))));
    var k := i - |o| - |u| - |t| - |u|;
    if i < |o| {
      assert w[i] == o[1..][i - 1];
    } else if i < |o| + |u| {
      assert w[i] == u[i - |o|];
    } else if i < |o| + |u| + |t| {
      assert w[i] == t[i - |o| - |u|];
    } else if i < |o| + |u| + |t| + |u| {
      assert w[i] == u[i - |o| - |u| - |t|];
    } else if k == 0 {
      assert w[i + 1] == c[1];
    } else {
      assert w[i] == c[1..][k - 1];
    }
  }

  // ------------------------------------------------------------ the replace

  /** Rewriting the text behind a position where no match starts does not
      create a match there. */
  lemma {:induction false} RewriteKeepsUnmatched(x: string, t: string)
    requires Match(x + t).None?
    ensures Match(x + MakeLinksClickable(t)).None?
    decreases |t|
  {
    if t == [] {
      assert x + MakeLinksClickable(t) == x + t;
    } else if Match(t).None? {
      assert x + t == (x + [t[0]]) + t[1..];
      RewriteKeepsUnmatched(x + [t[0]], t[1..]);
      CopiedCharacter(x, t);
    } else {
      var h := Match(t).value;
      MatchSound(t);
      var ws :| IsGap(ws) && t == HeaderText(ws, h.url, h.rest);
      HeaderReplaceable(ws, h.url, h.rest, MakeLinksClickable(h.rest));
      MatchStep(x, t, AnchorText(h.url, MakeLinksClickable(h.rest)));
    }
  }

  lemma CopiedCharacter(x: string, t: string)
    requires t != [] && Match(t).None?
    ensures x + MakeLinksClickable(t) == (x + [t[0]]) + MakeLinksClickable(t[1..])
  {
  }

  /** Text before the first match is copied unchanged. */
  lemma {:induction false} UnmatchedPrefixKept(s: string, i: nat)
    requires i <= |s| && UnmatchedBefore(s, i)
    ensures MakeLinksClickable(s) == s[..i] + MakeLinksClickable(s[i..])
    decreases i
  {
    if i == 0 {
      assert s[..0] + MakeLinksClickable(s[0..]) == MakeLinksClickable(s);
    } else {
      UnmatchedBeforeShrink(s, i);
      UnmatchedPrefixKept(s, i - 1);
      UnmatchedStep(s, i);
      TakeSnoc(s, i);
      PrefixSnoc(s[..i - 1], s[i - 1], s[..i], MakeLinksClickable(s), MakeLinksClickable(s[i - 1..]), MakeLinksClickable(s[i..]));
    }
  }

  lemma TakeSnoc(s: string, i: nat)
    requires 0 < i <= |s|
    ensures s[..i - 1] + [s[i - 1]] == s[..i]
  {
  }

  /** No match starts before position `i`. */
  ghost predicate UnmatchedBefore(s: string, i: nat)
    requires i <= |s|
  {
    forall j :: 0 <= j < i ==> UnmatchedAt(s, j)
  }

  lemma UnmatchedBeforeShrink(s: string, i: nat)
    requires 0 < i <= |s| && UnmatchedBefore(s, i)
    ensures UnmatchedBefore(s, i - 1) && UnmatchedAt(s, i - 1)
  {
  }

  /** Where no match starts, the character is copied and the scan moves on. */
  lemma UnmatchedStep(s: string, i: nat)
    requires 0 < i <= |s| && UnmatchedAt(s, i - 1)
    ensures MakeLinksClickable(s[i - 1..]) == [s[i - 1]] + MakeLinksClickable(s[i..])
  {
    assert s[i - 1..][1..] == s[i..];
  }

  lemma PrefixSnoc(p: string, c: char, q: string, a: string, b: string, x: string)
    requires a == p + b && b == [c] + x && q == p + [c]
    ensures a == q + x
  {
  }

  /** Text with no match is returned unchanged. */
  lemma UnmatchedUnchanged(s: string)
    requires Unmatched(s)
    ensures MakeLinksClickable(s) == s
  {
    UnmatchedPrefixKept(s, |s|);
    assert s[..|s|] == s && s[|s|..] == [];
  }

  /** A header not followed by `target=` before the next `>` becomes the
      anchor. One that is followed by it is copied as it is when its
      address holds no `<`; an address that does can itself hold the start
      of a further match. Either way the scan resumes behind the header. */
  lemma HeaderRewritten(ws: string, u: string, r: string)
    requires IsGap(ws) && IsUrl(u)
    ensures !TargetAhead(r) ==> MakeLinksClickable(HeaderText(ws, u, r)) == AnchorText(u, MakeLinksClickable(r))
    ensures TargetAhead(r) && '<' !in u ==> MakeLinksClickable(HeaderText(ws, u, r)) == HeaderText(ws, u, MakeLinksClickable(r))
  {
    MatchHeader(ws, u, r);
    if TargetAhead(r) && '<' !in u {
      var h := HeaderText(ws, u, []);
      var s := h + r;
      HeaderSplit(ws, u, r);
      HeaderSplit(ws, u, MakeLinksClickable(r));
      HeaderShape(ws, u, []);
      ShapedLead(h, ws);
      forall j | 0 < j < |h| ensures UnmatchedAt(s, j) {
        assert s[j] == h[j];
        if 8 + |ws| <= j < 8 + |ws| + |u| {
          assert h[8 + |ws| + (j - 8 - |ws|)] == u[j - 8 - |ws|];
          assert u[j - 8 - |ws|] in u;
        }
        NotOpenUnmatched(s, j);
      }
      assert s[0..] == s;
      UnmatchedPrefixKept(s, |h|);
      assert s[..|h|] == h && s[|h|..] == r;
    }
  }

  lemma CapturedTail(s: string)
    requires s != [] && Match(s).Some? && PlainUrls(s)
    ensures '<' !in Match(s).value.url && PlainUrls(Match(s).value.rest)
  {
    var h := Match(s).value;
    assert CapturedUrls(s) == [h.url] + CapturedUrls(h.rest);
    assert CapturedUrls(s)[0] == h.url;
    forall k | 0 <= k < |CapturedUrls(h.rest)| ensures '<' !in CapturedUrls(h.rest)[k] {
      assert CapturedUrls(h.rest)[k] == CapturedUrls(s)[k + 1];
    }
  }

  /** Rewriting leaves no match behind, provided no captured address
      contains `<`. */
  lemma {:induction false} RewriteLeavesNoMatch(s: string)
    requires PlainUrls(s)
    ensures Unmatched(MakeLinksClickable(s))
    decreases |s|
  {
    var out := MakeLinksClickable(s);
    if s != [] {
      match Match(s)
      case None =>
        assert CapturedUrls(s) == CapturedUrls(s[1..]);
        RewriteLeavesNoMatch(s[1..]);
        assert s == [s[0]] + s[1..];
        CopiedUnmatched(s[0], s[1..]);
      case Some(h) =>
        MatchSound(s);
        CapturedTail(s);
        RewriteLeavesNoMatch(h.rest);
        var tail := MakeLinksClickable(h.rest);
        AnchorUnmatched(h.url, tail);
    }
  }

  lemma CopiedUnmatched(c: char, t: string)
    requires Match([c] + t).None? && Unmatched(MakeLinksClickable(t))
    ensures Unmatched([c] + MakeLinksClickable(t))
  {
    var out := [c] + MakeLinksClickable(t);
    forall i | 0 <= i < |out| ensures UnmatchedAt(out, i) {
      if i == 0 {
        RewriteKeepsUnmatched([c], t);
        assert out[0..] == out;
      } else {
        assert UnmatchedAt(MakeLinksClickable(t), i - 1);
        assert out[i..] == MakeLinksClickable(t)[i - 1..];
      }
    }
  }

  /** An anchor for an address without `<`, followed by text in which no
      match starts, holds no match. */
  lemma AnchorUnmatched(u: string, tail: string)
    requires IsUrl(u) && '<' !in u && Unmatched(tail)
    ensures Unmatched(AnchorText(u, tail))
  {
    var out := AnchorText(u, tail);
    var a := AnchorText(u, []);
    AnchorSplit(u, tail);
    forall i | 0 <= i < |out| ensures UnmatchedAt(out, i) {
      if i == 0 {
        AnchorNotRematched(u, tail);
        assert out[0..] == out;
      } else if i < |a| {
        AnchorInterior(u, tail, i);
      } else {
        assert UnmatchedAt(tail, i - |a|);
        assert out[i..] == tail[i - |a|..];
      }
    }
  }

  /** Applying the rewrite twice is applying it once, provided no captured
      address contains `<`. */
  lemma RewriteIdempotent(s: string)
    requires PlainUrls(s)
    ensures MakeLinksClickable(MakeLinksClickable(s)) == MakeLinksClickable(s)
  {
    RewriteLeavesNoMatch(s);
    UnmatchedUnchanged(MakeLinksClickable(s));
  }


  /** The copy of `<a href=` that an anchor for that address begins its
      attributes with reads as a header whose address is ` target=`. */
  lemma AnchorAsHeader(z: string)
    ensures "<a href=" + (AnchorTail + z) == HeaderText(" ", " target=", AnchorRel + z)
  {
    var v := " target=";
    Regroup4("\"", v, AnchorRel, z);
    BlankLead();
    Regroup2("<a href=", "\"", v + ("\"" + (AnchorRel + z)));
  }

  lemma Regroup4(q: string, v: string, t: string, z: string)
    ensures (q + (v + (q + t))) + z == q + (v + (q + (t + z)))
  {
  }

  lemma Regroup2(a: string, b: string, x: string)
    ensures a + (b + x) == (a + b) + x
  {
  }

  lemma BlankLead()
    ensures HeaderLead(" ") == "<a href=" + "\""
  {
  }

  /** The rest of the anchor's attributes has a `>` before any `target=`. */
  lemma RestNotTargeted(z: string)
    ensures !TargetAhead(AnchorRel + z)
  {
    var r := AnchorRel + z;
    forall m | 0 <= m < 33 ensures r[m] != 't' && r[m] != '>' {
      assert r[m] == AnchorRel[m];
    }
    TargetFromSkip(r, 0, 33);
    assert r[33] == '>';
  }

  lemma DropFront(a: string, b: string)
    ensures (a + b)[|a|..] == b
  {
  }

  /** Without that proviso the rewrite is not idempotent: the address
      `<a href=` captured from `<a href="<a href="` yields an anchor in which
      a second pass finds a new header. */
  lemma RewriteNotIdempotent()
    ensures var s := "<a href=\"<a href=\"";
            MakeLinksClickable(MakeLinksClickable(s)) != MakeLinksClickable(s)
  {
    FirstPass();
    SecondPass("<a href=");
    OnceChar();
  }

  lemma OnceChar()
    ensures var once := AnchorText("<a href=", "");
            |once| > 27 && once[27] == '_'
  {
    TailChars("<a href=", "");
  }

  lemma FirstPass()
    ensures MakeLinksClickable("<a href=\"<a href=\"") == AnchorText("<a href=", "")
  {
    var u := "<a href=";
    BlankLead();
    assert "<a href=\"<a href=\"" == HeaderText(" ", u, "");
    MatchHeader(" ", u, "");
  }

  /** A second pass keeps the first nine characters of the anchor and matches
      at the `<a href=` that the first pass copied into it. */
  lemma SecondPass(u: string)
    requires u == "<a href="
    ensures var twice := MakeLinksClickable(AnchorText(u, []));
            |twice| > 27 && twice[27] == ' '
  {
    var once := AnchorText(u, []);
    AnchorPrefixUnmatched(u, []);
    UnmatchedPrefixKept(once, 9);
    var tail := OnceTail(u);
    var b := AnchorText(" target=", tail);
    TailChars(" target=", tail);
    IndexPast(once[..9], b, 27);
  }

  /** Two characters of the anchor's attributes. */
  lemma TailChars(u: string, r: string)
    ensures |AnchorText(u, r)| > 19 + |u|
    ensures AnchorText(u, r)[10 + |u|] == ' ' && AnchorText(u, r)[19 + |u|] == '_'
  {
    var t := AnchorTail + (u + (AnchorClose + r));
    assert AnchorText(u, r) == AnchorOpen + (u + t);
    assert t[1] == ' ' && t[10] == '_';
  }

  lemma OnceTail(u: string) returns (tail: string)
    requires u == "<a href="
    ensures var once := AnchorText(u, []);
            |once| >= 9 && MakeLinksClickable(once[9..]) == AnchorText(" target=", tail)
  {
    var v := " target=";
    var z := u + (AnchorClose + []);
    var r := AnchorRel + z;
    DropFront(AnchorOpen, u + (AnchorTail + z));
    AnchorAsHeader(z);
    RestNotTargeted(z);
    MatchHeader(" ", v, r);
    tail := MakeLinksClickable(r);
  }

  lemma IndexPast(a: string, b: string, i: nat)
    requires |a| <= i < |a| + |b|
    ensures (a + b)[i] == b[i - |a|]
  {
  }

  /** No match starts inside `<a href="` at the head of an anchor. */
  lemma AnchorPrefixUnmatched(u: string, r: string)
    requires IsUrl(u)
    ensures UnmatchedBefore(AnchorText(u, r), 9)
  {
    var a := AnchorText(u, r);
    AnchorIsLead();
    LeadChars(" ");
    LeadLookahead(AnchorOpen, " ", u + (AnchorTail + (u + (AnchorClose + r))));
    AnchorNotRematched(u, r);
    assert a[0..] == a;
    forall j | 0 < j < 9 ensures UnmatchedAt(a, j) {
      NotOpenUnmatched(a, j);
    }
  }
}
