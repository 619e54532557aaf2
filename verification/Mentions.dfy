/**
 The mention scanner and the gate renderer. Text is a sequence of UTF-16 code units, so offsets
 are the offsets the service stores. A mention is `[label|memberId]`.
 */
module Mentions {
  import opened Common

  newtype CodeUnit = x: int | 0 <= x < 0x1_0000

  type Text = seq<CodeUnit>

  const LF: CodeUnit := 10
  const CR: CodeUnit := 13
  const OPEN: CodeUnit := 0x5B  // [
  const CLOSE: CodeUnit := 0x5D // ]
  const BAR: CodeUnit := 0x7C   // |

  const ID_LENGTH: nat := 12

  /** Crockford's lower-case alphabet: 2-9 and a-z without i, l and o. */
  predicate IsIdChar(c: CodeUnit) {
    0x32 <= c <= 0x39 || (0x61 <= c <= 0x7A && c != 0x69 && c != 0x6C && c != 0x6F)
  }

  const ALPHABET := "23456789abcdefghjkmnpqrstuvwxyz"

  /** The units of an id are the letters of the alphabet. */
  lemma IdCharsAreTheAlphabet(c: CodeUnit)
    ensures IsIdChar(c) <==> exists i :: 0 <= i < |ALPHABET| && ALPHABET[i] as int == c as int
  {
    if IsIdChar(c) {
      var i := PlaceInAlphabet(c);
    }
  }

  lemma PlaceInAlphabet(c: CodeUnit) returns (i: nat)
    requires IsIdChar(c)
    ensures i < |ALPHABET| && ALPHABET[i] as int == c as int
  {
    var n := c as int;
    if n <= 0x39 {
      i := n - 0x32;
    } else if n < 0x69 {
      i := n - 0x61 + 8;
    } else if n < 0x6C {
      i := n - 0x6A + 16;
    } else if n < 0x6F {
      i := n - 0x6D + 18;
    } else {
      i := n - 0x70 + 20;
    }
  }

  predicate IsLabelChar(c: CodeUnit) {
    c != OPEN && c != CLOSE && c != BAR && c != CR && c != LF
  }

  /** White space and line terminators, as the language's `trim` defines them. */
  predicate IsSpace(c: CodeUnit) {
    || 0x09 <= c <= 0x0D || c == 0x20 || c == 0xA0 || c == 0x1680 || 0x2000 <= c <= 0x200A
    || c == 0x2028 || c == 0x2029 || c == 0x202F || c == 0x205F || c == 0x3000 || c == 0xFEFF
  }

  /** White space is tab, line feed, vertical tab, form feed, carriage return, the spaces, and the byte order mark. */
  lemma SpacesAre(c: CodeUnit)
    ensures IsSpace(c) <==> c as int in {
      9, 10, 11, 12, 13, 32, 160, 5760, 8192, 8193, 8194, 8195, 8196, 8197, 8198, 8199, 8200, 8201, 8202,
      8232, 8233, 8239, 8287, 12288, 65279}
  {
  }

  /** A label holds neither brackets nor bars nor line ends. */
  lemma LabelCharsAre(c: CodeUnit)
    ensures !IsLabelChar(c) <==> c as int in {10, 13, 91, 93, 124}
  {
  }

  function TrimStart(s: Text): Text {
    if s != [] && IsSpace(s[0]) then TrimStart(s[1..]) else s
  }

  function TrimEnd(s: Text): Text {
    if s != [] && IsSpace(s[|s| - 1]) then TrimEnd(s[..|s| - 1]) else s
  }

  function Trim(s: Text): Text {
    TrimEnd(TrimStart(s))
  }

  predicate Trimmed(authoredLabel: Text) {
    authoredLabel != [] && !IsSpace(authoredLabel[0]) && !IsSpace(authoredLabel[|authoredLabel| - 1])
  }

  lemma {:induction false} TrimEndShrinks(s: Text)
    ensures |TrimEnd(s)| <= |s|
    ensures TrimEnd(s) == s <==> s == [] || !IsSpace(s[|s| - 1])
  {
    if s != [] && IsSpace(s[|s| - 1]) {
      TrimEndShrinks(s[..|s| - 1]);
    }
  }

  lemma {:induction false} TrimStartShrinks(s: Text)
    ensures |TrimStart(s)| <= |s|
    ensures s != [] && IsSpace(s[0]) ==> |TrimStart(s)| < |s|
    ensures TrimStart(s) == s <==> s == [] || !IsSpace(s[0])
  {
    if s != [] && IsSpace(s[0]) {
      TrimStartShrinks(s[1..]);
    }
  }

  predicate AllSpace(s: Text) {
    forall i :: 0 <= i < |s| ==> IsSpace(s[i])
  }

  lemma {:induction false} TrimEndTakes(s: Text) returns (tail: Text)
    ensures s == TrimEnd(s) + tail && AllSpace(tail)
    ensures TrimEnd(s) != [] ==> !IsSpace(TrimEnd(s)[|TrimEnd(s)| - 1])
  {
    tail := [];
    if s != [] && IsSpace(s[|s| - 1]) {
      var rest := TrimEndTakes(s[..|s| - 1]);
      tail := rest + [s[|s| - 1]];
      assert s == s[..|s| - 1] + [s[|s| - 1]];
    }
  }

  lemma {:induction false} TrimStartTakes(s: Text) returns (head: Text)
    ensures s == head + TrimStart(s) && AllSpace(head)
    ensures TrimStart(s) != [] ==> !IsSpace(TrimStart(s)[0])
  {
    head := [];
    if s != [] && IsSpace(s[0]) {
      var rest := TrimStartTakes(s[1..]);
      head := [s[0]] + rest;
      assert s == [s[0]] + s[1..];
    }
  }

  /** Trimming takes white space off both ends, and all of it. */
  lemma TrimTakesOuterSpace(s: Text) returns (head: Text, tail: Text)
    ensures s == head + Trim(s) + tail && AllSpace(head) && AllSpace(tail)
    ensures Trim(s) == [] || Trimmed(Trim(s))
  {
    head := TrimStartTakes(s);
    tail := TrimEndTakes(TrimStart(s));
    assert Trim(s) != [] ==> Trim(s)[0] == TrimStart(s)[0];
    assert head + (Trim(s) + tail) == head + Trim(s) + tail;
  }

  lemma TrimEmptiesSpace(s: Text)
    ensures Trim(s) == [] <==> AllSpace(s)
  {
    var head, tail := TrimTakesOuterSpace(s);
    if Trim(s) == [] {
      assert s == head + tail;
    } else {
      assert s[|head|] == Trim(s)[0];
    }
  }

  /** The scanner's test keeps exactly the labels that are nonempty and have no outer white space. */
  lemma TrimTestIsTrimmed(authoredLabel: Text)
    ensures !(|Trim(authoredLabel)| == 0 || authoredLabel != Trim(authoredLabel)) <==> Trimmed(authoredLabel)
  {
    TrimStartShrinks(authoredLabel);
    TrimEndShrinks(TrimStart(authoredLabel));
    TrimEndShrinks(authoredLabel);
  }

  // ---- What a mention is --------------------------------------------------------------------------

  datatype Mention = Mention(start: nat, end: nat, authoredLabel: Text, memberId: Text)

  /** `m` stands in `text`: brackets, a nonempty label, a bar and a twelve-character id. */
  predicate Matches(text: Text, m: Mention) {
    && m.start <= m.end <= |text|
    && m.authoredLabel != [] && |m.memberId| == ID_LENGTH
    && (forall i :: 0 <= i < |m.authoredLabel| ==> IsLabelChar(m.authoredLabel[i]))
    && (forall i :: 0 <= i < ID_LENGTH ==> IsIdChar(m.memberId[i]))
    && text[m.start..m.end] == [OPEN] + m.authoredLabel + [BAR] + m.memberId + [CLOSE]
  }

  predicate IsMention(text: Text, m: Mention) {
    Matches(text, m) && Trimmed(m.authoredLabel)
  }

  function LabelEnd(text: Text, i: nat): (r: nat)
    requires i <= |text|
    ensures i <= r <= |text|
    ensures forall k :: i <= k < r ==> IsLabelChar(text[k])
    ensures r < |text| ==> !IsLabelChar(text[r])
    decreases |text| - i
  {
    if i < |text| && IsLabelChar(text[i]) then LabelEnd(text, i + 1) else i
  }

  /** The expression's match at `p`, which the label's character class makes unique. */
  function MatchAt(text: Text, p: nat): Option<Mention>
    requires p < |text|
  {
    if text[p] != OPEN then None
    else
      var bar := LabelEnd(text, p + 1);
      var close := bar + 1 + ID_LENGTH;
      if bar > p + 1 && close < |text| && text[bar] == BAR && text[close] == CLOSE
         && forall i :: bar < i < close ==> IsIdChar(text[i])
      then Some(Mention(p, close + 1, text[p + 1..bar], text[bar + 1..close]))
      else None
  }

  lemma SpanSplits(text: Text, p: nat, bar: nat, end: nat)
    requires p < bar < end - 1 && end <= |text|
    ensures text[p..end] == [text[p]] + text[p + 1..bar] + [text[bar]] + text[bar + 1..end - 1] + [text[end - 1]]
  {
    assert text[p..end] == text[p..bar] + text[bar..end];
    assert text[p..bar] == [text[p]] + text[p + 1..bar];
    assert text[bar..end] == [text[bar]] + text[bar + 1..end - 1] + [text[end - 1]];
  }

  lemma MatchAtMatches(text: Text, p: nat)
    requires p < |text| && MatchAt(text, p).Some?
    ensures Matches(text, MatchAt(text, p).value) && MatchAt(text, p).value.start == p
  {
    var m := MatchAt(text, p).value;
    var bar := LabelEnd(text, p + 1);
    SpanSplits(text, p, bar, m.end);
    assert forall i :: 0 <= i < |m.authoredLabel| ==> m.authoredLabel[i] == text[p + 1 + i];
    assert forall i :: 0 <= i < ID_LENGTH ==> m.memberId[i] == text[bar + 1 + i];
  }

  lemma SliceOfSlice(t: Text, a: nat, b: nat, c: nat, d: nat)
    requires a <= b <= |t| && c <= d <= b - a
    ensures t[a..b][c..d] == t[a + c..a + d]
  {
    forall i | 0 <= i < d - c ensures t[a..b][c..d][i] == t[a + c..a + d][i] {
      assert t[a..b][c + i] == t[a + c + i];
    }
    assert t[a..b][c..d] == t[a + c..a + d];
  }

  lemma SpanParts(authoredLabel: Text, memberId: Text)
    requires |memberId| == ID_LENGTH
    ensures var span := [OPEN] + authoredLabel + [BAR] + memberId + [CLOSE];
      var n := |authoredLabel|;
      && |span| == n + 15 && span[0] == OPEN && span[1 + n] == BAR && span[n + 14] == CLOSE
      && span[1..1 + n] == authoredLabel && span[2 + n..n + 14] == memberId
  {
    var span := [OPEN] + authoredLabel + [BAR] + memberId + [CLOSE];
    var n := |authoredLabel|;
    forall i | 0 <= i < n ensures span[1..1 + n][i] == authoredLabel[i] {
      assert span[1 + i] == authoredLabel[i];
    }
    forall i | 0 <= i < ID_LENGTH ensures span[2 + n..n + 14][i] == memberId[i] {
      assert span[2 + n + i] == memberId[i];
    }
    assert span[1..1 + n] == authoredLabel;
    assert span[2 + n..n + 14] == memberId;
  }

  /** Where the parts of a span stand. */
  lemma MatchParts(text: Text, m: Mention)
    requires Matches(text, m)
    ensures m.end == m.start + |m.authoredLabel| + 15
    ensures text[m.start] == OPEN && text[m.start + 1 + |m.authoredLabel|] == BAR && text[m.end - 1] == CLOSE
    ensures text[m.start + 1..m.start + 1 + |m.authoredLabel|] == m.authoredLabel
    ensures text[m.start + 2 + |m.authoredLabel|..m.end - 1] == m.memberId
  {
    var n := |m.authoredLabel|;
    SpanParts(m.authoredLabel, m.memberId);
    assert |text[m.start..m.end]| == n + 15;
    SliceOfSlice(text, m.start, m.end, 1, 1 + n);
    SliceOfSlice(text, m.start, m.end, 2 + n, n + 14);
    assert text[m.start..m.end][0] == text[m.start];
    assert text[m.start..m.end][1 + n] == text[m.start + 1 + n];
    assert text[m.start..m.end][n + 14] == text[m.start + n + 14];
  }

  /** The parts of a span, and that no bracket opens inside it. */
  lemma MatchLayout(text: Text, m: Mention)
    requires Matches(text, m)
    ensures m.end == m.start + |m.authoredLabel| + 15
    ensures text[m.start] == OPEN && text[m.start + 1 + |m.authoredLabel|] == BAR && text[m.end - 1] == CLOSE
    ensures text[m.start + 1..m.start + 1 + |m.authoredLabel|] == m.authoredLabel
    ensures text[m.start + 2 + |m.authoredLabel|..m.end - 1] == m.memberId
    ensures forall i :: m.start < i < m.end ==> text[i] != OPEN
  {
    MatchParts(text, m);
    var from := m.start + 1;
    var bar := from + |m.authoredLabel|;
    forall i | m.start < i < m.end ensures text[i] != OPEN {
      if i < bar {
        assert text[i] == text[from..bar][i - from];
      } else if bar < i < m.end - 1 {
        assert text[i] == text[bar + 1..m.end - 1][i - bar - 1];
      }
    }
  }

  lemma {:induction false} LabelEndAtBar(text: Text, i: nat, bar: nat)
    requires i <= bar < |text| && !IsLabelChar(text[bar])
    requires forall k :: i <= k < bar ==> IsLabelChar(text[k])
    ensures LabelEnd(text, i) == bar
    decreases bar - i
  {
    if i < bar {
      LabelEndAtBar(text, i + 1, bar);
    }
  }

  lemma MatchesAreFound(text: Text, m: Mention)
    requires Matches(text, m)
    ensures m.start < |text| && MatchAt(text, m.start) == Some(m)
  {
    MatchLayout(text, m);
    var bar := m.start + 1 + |m.authoredLabel|;
    forall k | m.start + 1 <= k < bar ensures IsLabelChar(text[k]) {
      assert text[k] == text[m.start + 1..bar][k - m.start - 1];
    }
    LabelEndAtBar(text, m.start + 1, bar);
    forall i | bar < i < m.end - 1 ensures IsIdChar(text[i]) {
      assert text[i] == text[bar + 1..m.end - 1][i - bar - 1];
    }
  }

  // ---- The mentions of a text ---------------------------------------------------------------------

  function MentionAt(text: Text, p: nat): Option<Mention>
    requires p < |text|
  {
    var m := MatchAt(text, p);
    if m.Some? && Trimmed(m.value.authoredLabel) then m else None
  }

  /** Every position from `p` on is looked at, also inside other matches. */
  function MentionsFrom(text: Text, p: nat): seq<Mention>
    decreases |text| - p
  {
    if p >= |text| then []
    else
      var m := MentionAt(text, p);
      (if m.Some? then [m.value] else []) + MentionsFrom(text, p + 1)
  }

  function TextMentions(text: Option<Text>): seq<Mention> {
    if text.None? then [] else MentionsFrom(text.value, 0)
  }

  lemma MentionsFromNext(text: Text, p: nat, m: Mention)
    requires p < |text|
    ensures m in MentionsFrom(text, p) <==> MentionAt(text, p) == Some(m) || m in MentionsFrom(text, p + 1)
    ensures MentionAt(text, p) == Some(m) ==> m.start == p
  {
  }

  predicate StandsAt(text: Text, m: Mention) {
    m.start < |text| && MentionAt(text, m.start) == Some(m)
  }

  lemma InMentionsHere(text: Text, p: nat, m: Mention)
    requires p < |text| && (m in MentionsFrom(text, p + 1) <==> p < m.start && StandsAt(text, m))
    ensures m in MentionsFrom(text, p) <==> p <= m.start && StandsAt(text, m)
  {
    MentionsFromNext(text, p, m);
  }

  lemma {:induction false} InMentionsFrom(text: Text, p: nat, m: Mention)
    ensures m in MentionsFrom(text, p) <==> p <= m.start && StandsAt(text, m)
    decreases |text| - p
  {
    if p < |text| {
      InMentionsFrom(text, p + 1, m);
      InMentionsHere(text, p, m);
    }
  }

  lemma MentionsFromExactly(text: Text, p: nat, m: Mention)
    ensures m in MentionsFrom(text, p) <==> IsMention(text, m) && p <= m.start
  {
    InMentionsFrom(text, p, m);
    if p <= m.start < |text| && MentionAt(text, m.start) == Some(m) {
      MatchAtMatches(text, m.start);
    }
    if IsMention(text, m) {
      MatchesAreFound(text, m);
    }
  }

  /** A mention ends before any later one starts. */
  lemma EndsBeforeNext(text: Text, p: nat, next: Mention)
    requires p < |text| && MentionAt(text, p).Some? && next in MentionsFrom(text, p + 1)
    ensures MentionAt(text, p).value.end <= next.start
  {
    MentionsFromExactly(text, p + 1, next);
    MatchAtMatches(text, p);
    MatchLayout(text, MentionAt(text, p).value);
    MatchLayout(text, next);
  }

  lemma HereAndRest(text: Text, p: nat)
    requires p < |text|
    ensures MentionsFrom(text, p)
      == (if MentionAt(text, p).Some? then [MentionAt(text, p).value] else []) + MentionsFrom(text, p + 1)
  {
  }

  lemma {:induction false} MentionsFromAscend(text: Text, p: nat, i: nat, j: nat)
    requires i < j < |MentionsFrom(text, p)|
    ensures MentionsFrom(text, p)[i].end <= MentionsFrom(text, p)[j].start
    decreases |text| - p
  {
    HereAndRest(text, p);
    var rest := MentionsFrom(text, p + 1);
    if MentionAt(text, p).None? {
      assert MentionsFrom(text, p) == rest;
      MentionsFromAscend(text, p + 1, i, j);
    } else if i > 0 {
      MentionsFromAscend(text, p + 1, i - 1, j - 1);
    } else {
      assert rest[j - 1] in rest;
      EndsBeforeNext(text, p, rest[j - 1]);
    }
  }

  lemma {:induction false} NothingToFind(text: Text, p: nat, q: nat)
    requires p <= q <= |text|
    requires forall i :: p <= i < q ==> MentionAt(text, i).None?
    ensures MentionsFrom(text, p) == MentionsFrom(text, q)
    decreases q - p
  {
    if p < q {
      NothingToFind(text, p + 1, q);
    }
  }

  /** The scan's position after the last match is as good as the position after its first bracket. */
  lemma SkipMatch(text: Text, p: nat)
    requires p < |text| && MatchAt(text, p).Some?
    ensures MentionsFrom(text, p)
      == (if MentionAt(text, p).Some? then [MatchAt(text, p).value] else [])
         + MentionsFrom(text, MatchAt(text, p).value.end)
  {
    var m := MatchAt(text, p).value;
    MatchAtMatches(text, p);
    MatchLayout(text, m);
    NothingToFind(text, p + 1, m.end);
  }

  /** The expression engine: the leftmost match at or after `from`. */
  function Exec(text: Text, from: nat): (r: Option<Mention>)
    decreases |text| - from
  {
    if from >= |text| then None
    else if MatchAt(text, from).Some? then MatchAt(text, from)
    else Exec(text, from + 1)
  }

  lemma {:induction false} ExecIsLeftmost(text: Text, from: nat)
    ensures match Exec(text, from)
      case None => forall i :: from <= i < |text| ==> MatchAt(text, i).None?
      case Some(m) =>
        && from <= m.start < |text| && MatchAt(text, m.start) == Some(m)
        && forall i :: from <= i < m.start ==> MatchAt(text, i).None?
    decreases |text| - from
  {
    if from < |text| {
      if MatchAt(text, from).Some? {
        MatchAtMatches(text, from);
      } else {
        ExecIsLeftmost(text, from + 1);
      }
    }
  }

  lemma {:induction false} NoBracketNoMention(text: Text, p: nat)
    requires OPEN !in text
    ensures MentionsFrom(text, p) == []
    decreases |text| - p
  {
    if p < |text| {
      assert text[p] in text;
      NoBracketNoMention(text, p + 1);
    }
  }

  /** One turn of the scan: what the engine finds next, and where the scan goes on. */
  lemma ScanStep(text: Text, lastIndex: nat)
    requires lastIndex <= |text|
    ensures match Exec(text, lastIndex)
      case None => MentionsFrom(text, lastIndex) == []
      case Some(m) =>
        && lastIndex < m.end <= |text|
        && MentionsFrom(text, lastIndex)
             == (if Trimmed(m.authoredLabel) then [m] else []) + MentionsFrom(text, m.end)
  {
    ExecIsLeftmost(text, lastIndex);
    var found := Exec(text, lastIndex);
    if found.None? {
      NothingToFind(text, lastIndex, |text|);
    } else {
      var m := found.value;
      NothingToFind(text, lastIndex, m.start);
      SkipMatch(text, m.start);
      MatchAtMatches(text, m.start);
      MatchLayout(text, m);
    }
  }

  /** One left-to-right scan that jumps past every match finds the mentions of every position. */
  method ExtractMentionCandidates(text: Option<Text>) returns (mentions: seq<Mention>)
    ensures mentions == TextMentions(text)
  {
    if text.None? || text.value == [] || OPEN !in text.value {
      if text.Some? {
        NoBracketNoMention(text.value, 0);
      }
      return [];
    }
    var t := text.value;
    mentions := [];
    assert [] + MentionsFrom(t, 0) == MentionsFrom(t, 0);
    var lastIndex := 0;
    while true
      invariant 0 <= lastIndex <= |t|
      invariant mentions + MentionsFrom(t, lastIndex) == MentionsFrom(t, 0)
      decreases |t| - lastIndex
    {
      var found := Exec(t, lastIndex);
      ScanStep(t, lastIndex);
      if found.None? {
        assert mentions + [] == mentions;
        return;
      }
      var m := found.value;
      TrimTestIsTrimmed(m.authoredLabel);
      ghost var rest := MentionsFrom(t, m.end);
      lastIndex := m.end;
      if |Trim(m.authoredLabel)| == 0 || m.authoredLabel != Trim(m.authoredLabel) {
        assert [] + rest == rest;
        continue;
      }
      assert mentions + ([m] + rest) == (mentions + [m]) + rest;
      mentions := mentions + [m];
    }
  }

  /** The scan returns, ascending and pairwise disjoint, exactly the well-formed mentions. */
  lemma ScanIsComplete(text: Text)
    ensures forall m :: m in MentionsFrom(text, 0) <==> IsMention(text, m)
    ensures var ms := MentionsFrom(text, 0);
      forall i, j :: 0 <= i < j < |ms| ==> ms[i].end <= ms[j].start
  {
    forall m ensures m in MentionsFrom(text, 0) <==> IsMention(text, m) {
      MentionsFromExactly(text, 0, m);
    }
    var ms := MentionsFrom(text, 0);
    forall i, j | 0 <= i < j < |ms| ensures ms[i].end <= ms[j].start {
      MentionsFromAscend(text, 0, i, j);
    }
  }

  // ---- Rendering ------------------------------------------------------------------------------------

  /** Every mention gives its label, every other code unit itself, in order. */
  function RenderFrom(text: Text, p: nat): Text
    decreases |text| - p
  {
    if p >= |text| then []
    else
      var m := MentionAt(text, p);
      if m.Some? && p < m.value.end then m.value.authoredLabel + RenderFrom(text, m.value.end)
      else [text[p]] + RenderFrom(text, p + 1)
  }

  function Render(text: Text): Text {
    RenderFrom(text, 0)
  }

  lemma RenderUnit(text: Text, p: nat)
    requires p < |text| && MentionAt(text, p).None?
    ensures RenderFrom(text, p) == [text[p]] + RenderFrom(text, p + 1)
  {
  }

  lemma Regroup(a: Text, b: Text, c: Text)
    ensures a + (b + c) == a + b + c
  {
  }

  lemma {:induction false} RenderPlain(text: Text, p: nat, q: nat)
    requires p <= q <= |text|
    requires forall i :: p <= i < q ==> MentionAt(text, i).None?
    ensures RenderFrom(text, p) == text[p..q] + RenderFrom(text, q)
    decreases q - p
  {
    if p < q {
      RenderUnit(text, p);
      RenderPlain(text, p + 1, q);
      assert text[p..q] == [text[p]] + text[p + 1..q];
      Regroup([text[p]], text[p + 1..q], RenderFrom(text, q));
    }
  }

  lemma MentionHere(text: Text, p: nat)
    requires p < |text| && MentionAt(text, p).Some?
    ensures var m := MentionAt(text, p).value;
      m.start == p < m.end <= |text| && MentionsFrom(text, p) == [m] + MentionsFrom(text, m.end)
  {
    SkipMatch(text, p);
    MatchAtMatches(text, p);
    MatchLayout(text, MentionAt(text, p).value);
  }

  lemma NoMentionHere(text: Text, p: nat)
    requires p < |text| && MentionAt(text, p).None?
    ensures MentionsFrom(text, p) == MentionsFrom(text, p + 1)
  {
  }

  /** `m` is the first mention from `p` on: nothing before it, and the rest after it. */
  predicate IsFirst(text: Text, p: nat, m: Mention) {
    && p <= m.start < |text| && m.start < m.end <= |text| && MentionAt(text, m.start) == Some(m)
    && (forall i :: p <= i < m.start ==> MentionAt(text, i).None?)
  }

  lemma {:induction false} FirstMention(text: Text, p: nat)
    requires p <= |text| && MentionsFrom(text, p) != []
    ensures IsFirst(text, p, MentionsFrom(text, p)[0])
    ensures MentionsFrom(text, p)[1..] == MentionsFrom(text, MentionsFrom(text, p)[0].end)
    decreases |text| - p
  {
    if MentionAt(text, p).Some? {
      MentionHere(text, p);
      var m := MentionAt(text, p).value;
      var rest := MentionsFrom(text, m.end);
      assert ([m] + rest)[0] == m && ([m] + rest)[1..] == rest;
    } else {
      NoMentionHere(text, p);
      FirstMention(text, p + 1);
    }
  }

  lemma {:induction false} NoneLeft(text: Text, p: nat, i: nat)
    requires p <= i < |text| && MentionsFrom(text, p) == []
    ensures MentionAt(text, i).None?
    decreases i - p
  {
    if p < i {
      NoneLeft(text, p + 1, i);
    }
  }

  lemma RenderMention(text: Text, p: nat)
    requires p <= |text| && MentionsFrom(text, p) != []
    ensures var m := MentionsFrom(text, p)[0];
      && p <= m.start < m.end <= |text|
      && RenderFrom(text, p) == text[p..m.start] + m.authoredLabel + RenderFrom(text, m.end)
  {
    FirstMention(text, p);
    var m := MentionsFrom(text, p)[0];
    RenderPlain(text, p, m.start);
    Regroup(text[p..m.start], m.authoredLabel, RenderFrom(text, m.end));
  }

  /** What the rendering loop keeps: `left` are the mentions ahead of the cursor, and the rest is rendered. */
  predicate Rendering(value: Text, left: seq<Mention>, cursor: nat, rendered: Text) {
    && cursor <= |value|
    && left == MentionsFrom(value, cursor)
    && rendered + RenderFrom(value, cursor) == Render(value)
  }

  lemma RenderTurn(value: Text, left: seq<Mention>, cursor: nat, rendered: Text)
    requires Rendering(value, left, cursor, rendered) && left != []
    ensures cursor <= left[0].start <= |value|
    ensures Rendering(value, left[1..], left[0].end, rendered + value[cursor..left[0].start] + left[0].authoredLabel)
  {
    FirstMention(value, cursor);
    RenderMention(value, cursor);
    var m := left[0];
    var plain, rest := value[cursor..m.start], RenderFrom(value, m.end);
    Regroup(rendered, plain + m.authoredLabel, rest);
    Regroup(rendered, plain, m.authoredLabel);
  }

  lemma RenderEnd(value: Text, cursor: nat, rendered: Text)
    requires Rendering(value, [], cursor, rendered)
    ensures rendered + value[cursor..] == Render(value)
  {
    RenderRest(value, cursor);
  }

  method RenderGateText(value: Text) returns (rendered: Text)
    ensures rendered == Render(value)
  {
    var mentions := ExtractMentionCandidates(Some(value));
    if |mentions| == 0 {
      RenderRest(value, 0);
      return value;
    }
    rendered := [];
    var cursor: nat := 0;
    assert mentions[0..] == mentions && rendered + Render(value) == Render(value);
    for k := 0 to |mentions|
      invariant Rendering(value, mentions[k..], cursor, rendered)
    {
      var m := mentions[k];
      RenderTurn(value, mentions[k..], cursor, rendered);
      assert mentions[k..][1..] == mentions[k + 1..];
      rendered := rendered + value[cursor..m.start];
      rendered := rendered + m.authoredLabel;
      cursor := m.end;
    }
    RenderEnd(value, cursor, rendered);
    rendered := rendered + value[cursor..];
  }

  lemma RenderRest(text: Text, p: nat)
    requires p <= |text| && MentionsFrom(text, p) == []
    ensures RenderFrom(text, p) == text[p..]
  {
    forall i | p <= i < |text| ensures MentionAt(text, i).None? {
      NoneLeft(text, p, i);
    }
    RenderPlain(text, p, |text|);
    assert text[p..|text|] == text[p..];
  }

  /** Rendering shortens the text by exactly fifteen code units a mention. */
  lemma {:induction false} RenderLength(text: Text, p: nat)
    requires p <= |text|
    ensures |RenderFrom(text, p)| + 15 * |MentionsFrom(text, p)| == |text| - p
    decreases |text| - p
  {
    if MentionsFrom(text, p) == [] {
      RenderRest(text, p);
    } else {
      FirstMention(text, p);
      var m := MentionsFrom(text, p)[0];
      RenderPlain(text, p, m.start);
      MatchAtMatches(text, m.start);
      MatchLayout(text, m);
      RenderLength(text, m.end);
      assert |MentionsFrom(text, p)[1..]| == |MentionsFrom(text, p)| - 1;
    }
  }

  /** Rendering leaves a text alone exactly when it holds no mention. */
  lemma RenderFixedIffPlain(text: Text)
    ensures Render(text) == text <==> forall m :: !IsMention(text, m)
  {
    ScanIsComplete(text);
    RenderLength(text, 0);
    if MentionsFrom(text, 0) == [] {
      RenderRest(text, 0);
    } else {
      assert MentionsFrom(text, 0)[0] in MentionsFrom(text, 0);
    }
  }

  const A_UNIT: CodeUnit := 0x61
  const TWOS: Text := seq(ID_LENGTH, _ => 0x32)
  const THREES: Text := seq(ID_LENGTH, _ => 0x33)

  function AMention(memberId: Text): Text {
    [OPEN] + [A_UNIT] + [BAR] + memberId + [CLOSE]
  }

  /** The first rendering can leave one: nested brackets around a mention become a new mention. */
  lemma NestedBracketsRenderToMention() returns (text: Text)
    ensures Render(Render(text)) != Render(text)
  {
    text := [OPEN] + AMention(TWOS) + ([BAR] + THREES + [CLOSE]);
    var inner := Mention(1, 17, [A_UNIT], TWOS);
    assert text[1..17] == AMention(TWOS);
    MatchesAreFound(text, inner);
    LabelEndAtBar(text, 1, 1);
    RenderPlain(text, 0, 1);
    var tail := text[17..];
    assert tail == [BAR] + THREES + [CLOSE];
    forall i | 17 <= i < |text| ensures text[i] != OPEN {
      assert text[i] == tail[i - 17];
      if 0 < i - 17 <= ID_LENGTH {
        assert tail[i - 17] == THREES[i - 18];
      }
    }
    RenderPlain(text, 17, |text|);
    assert RenderFrom(text, 1) == [A_UNIT] + RenderFrom(text, 17);
    assert text[0..1] == [OPEN] && text[17..|text|] == tail;
    assert Render(text) == AMention(THREES);
    assert IsMention(AMention(THREES), Mention(0, 16, [A_UNIT], THREES)) by {
      assert AMention(THREES)[0..16] == AMention(THREES);
    }
    RenderFixedIffPlain(Render(text));
  }
}
