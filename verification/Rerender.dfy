/** When a second rendering of gate text changes what the first one left: a condition on the original text. */
module Rerender {
  import opened Common
  import opened Mentions

  /** An opening bracket that starts no mention. */
  predicate Stray(text: Text, p: nat) {
    p < |text| && text[p] == OPEN && MentionAt(text, p).None?
  }

  /**
   What plain units and the labels of whole mentions spell from `p` up to the next closing bracket outside any
   mention, if there is one before the next stray bracket.
   */
  function Spelled(text: Text, p: nat): Option<Text>
    decreases |text| - p
  {
    if p >= |text| then None
    else
      var m := MentionAt(text, p);
      if m.Some? && p < m.value.end then Prepend(m.value.authoredLabel, Spelled(text, m.value.end))
      else if text[p] == CLOSE then Some([])
      else if text[p] == OPEN then None
      else Prepend([text[p]], Spelled(text, p + 1))
  }

  function Prepend(a: Text, rest: Option<Text>): Option<Text> {
    if rest.None? then None else Some(a + rest.value)
  }

  /** A trimmed label, a bar and twelve id characters. */
  predicate IsBody(w: Text) {
    && |w| > ID_LENGTH + 1
    && var bar := |w| - ID_LENGTH - 1;
    && w[bar] == BAR && Trimmed(w[..bar])
    && (forall i :: 0 <= i < bar ==> IsLabelChar(w[i]))
    && (forall i :: bar < i < |w| ==> IsIdChar(w[i]))
  }

  /** The stray bracket at `p` becomes the start of a mention when what follows it is rendered. */
  predicate Forges(text: Text, p: nat) {
    Stray(text, p) && Spelled(text, p + 1).Some? && IsBody(Spelled(text, p + 1).value)
  }

  // ---- What stands before the first closing bracket --------------------------------------------------------

  /** The units before the first closing bracket, if no opening one comes first. */
  function BeforeClose(x: Text): Option<Text> {
    if x == [] || x[0] == OPEN then None
    else if x[0] == CLOSE then Some([])
    else Prepend([x[0]], BeforeClose(x[1..]))
  }

  lemma {:induction false} BeforeCloseIs(x: Text, w: Text)
    requires OPEN !in w && CLOSE !in w
    ensures BeforeClose(x) == Some(w) <==> w + [CLOSE] <= x
  {
    if w == [] {
      assert x != [] ==> ([CLOSE] <= x <==> x[0] == CLOSE);
    } else if x != [] {
      assert w[0] in w;
      assert forall c :: c in w[1..] ==> c in w;
      BeforeCloseIs(x[1..], w[1..]);
      assert w == [w[0]] + w[1..];
      if w + [CLOSE] <= x {
        assert x[0] == (w + [CLOSE])[0] == w[0];
        assert w[1..] + [CLOSE] == (w + [CLOSE])[1..];
        assert w[1..] + [CLOSE] <= x[1..];
      }
      if BeforeClose(x) == Some(w) {
        var rest := BeforeClose(x[1..]).value;
        assert ([x[0]] + rest)[0] == w[0] && ([x[0]] + rest)[1..] == w[1..] == rest;
        assert x == [x[0]] + x[1..];
        assert w + [CLOSE] == [w[0]] + (w[1..] + [CLOSE]);
      }
    }
  }

  lemma {:induction false} BeforeCloseFree(x: Text)
    requires BeforeClose(x).Some?
    ensures OPEN !in BeforeClose(x).value && CLOSE !in BeforeClose(x).value
  {
    if x[0] != CLOSE {
      BeforeCloseFree(x[1..]);
    }
  }

  lemma {:induction false} BeforeCloseSkips(a: Text, x: Text)
    requires OPEN !in a && CLOSE !in a
    ensures BeforeClose(a + x) == Prepend(a, BeforeClose(x))
  {
    if a == [] {
      assert a + x == x;
      if BeforeClose(x).Some? {
        assert [] + BeforeClose(x).value == BeforeClose(x).value;
      }
    } else {
      assert a[0] in a && forall c :: c in a[1..] ==> c in a;
      BeforeCloseSkips(a[1..], x);
      assert (a + x)[0] == a[0] && (a + x)[1..] == a[1..] + x;
      if BeforeClose(x).Some? {
        Regroup([a[0]], a[1..], BeforeClose(x).value);
        assert [a[0]] + a[1..] == a;
      }
    }
  }

  lemma LabelHasNoBrackets(text: Text, p: nat)
    requires p < |text| && MentionAt(text, p).Some?
    ensures var m := MentionAt(text, p).value;
      p < m.end <= |text| && OPEN !in m.authoredLabel && CLOSE !in m.authoredLabel
      && forall q :: p < q < m.end ==> text[q] != OPEN
  {
    MatchAtMatches(text, p);
    MatchLayout(text, MentionAt(text, p).value);
  }

  /** What is spelled from a position is what the rendering from there has before its first closing bracket. */
  lemma {:induction false} SpelledIsRendered(text: Text, p: nat)
    ensures Spelled(text, p) == BeforeClose(RenderFrom(text, p))
    decreases |text| - p
  {
    if p < |text| {
      if MentionAt(text, p).Some? {
        var m := MentionAt(text, p).value;
        LabelHasNoBrackets(text, p);
        SpelledIsRendered(text, m.end);
        BeforeCloseSkips(m.authoredLabel, RenderFrom(text, m.end));
      } else {
        RenderUnit(text, p);
        var rest := RenderFrom(text, p + 1);
        assert ([text[p]] + rest)[0] == text[p] && ([text[p]] + rest)[1..] == rest;
        if text[p] != OPEN && text[p] != CLOSE {
          SpelledIsRendered(text, p + 1);
        }
      }
    }
  }

  // ---- Mentions after an opening bracket, and behind other text ----------------------------------------------

  lemma BodyHasNoBrackets(w: Text)
    requires IsBody(w)
    ensures OPEN !in w && CLOSE !in w
  {
  }

  function BodyMention(w: Text, start: nat): Mention
    requires |w| > ID_LENGTH
  {
    var bar := |w| - ID_LENGTH - 1;
    Mention(start, start + |w| + 2, w[..bar], w[bar + 1..])
  }

  /** A body in brackets at the front of a text is a mention. */
  lemma BodyIsMention(x: Text, w: Text)
    requires IsBody(w) && w + [CLOSE] <= x
    ensures IsMention([OPEN] + x, BodyMention(w, 0))
  {
    var bar := |w| - ID_LENGTH - 1;
    var m := BodyMention(w, 0);
    assert w == w[..bar] + [BAR] + w[bar + 1..];
    assert ([OPEN] + x)[0..m.end] == [OPEN] + (w + [CLOSE]);
    assert [OPEN] + (w + [CLOSE]) == [OPEN] + m.authoredLabel + [BAR] + m.memberId + [CLOSE];
  }

  /** A mention at the front of a text is a body in brackets. */
  lemma MentionIsBody(x: Text, m: Mention)
    requires IsMention([OPEN] + x, m) && m.start == 0
    ensures var w := m.authoredLabel + [BAR] + m.memberId; IsBody(w) && w + [CLOSE] <= x
  {
    var w := m.authoredLabel + [BAR] + m.memberId;
    var bar := |m.authoredLabel|;
    assert w[..bar] == m.authoredLabel;
    assert forall i :: bar < i < |w| ==> w[i] == m.memberId[i - bar - 1];
    assert forall i :: 0 <= i < bar ==> w[i] == m.authoredLabel[i];
    assert ([OPEN] + x)[0..m.end] == [OPEN] + (w + [CLOSE]);
    assert x[..m.end - 1] == ([OPEN] + x)[1..m.end] == ([OPEN] + (w + [CLOSE]))[1..] == w + [CLOSE];
  }

  ghost predicate HoldsMention(x: Text) {
    exists m :: IsMention(x, m)
  }

  lemma FrontMention(x: Text)
    ensures (exists m :: IsMention([OPEN] + x, m) && m.start == 0)
      <==> BeforeClose(x).Some? && IsBody(BeforeClose(x).value)
  {
    if m :| IsMention([OPEN] + x, m) && m.start == 0 {
      MentionIsBody(x, m);
      var w := m.authoredLabel + [BAR] + m.memberId;
      BodyHasNoBrackets(w);
      BeforeCloseIs(x, w);
    }
    if BeforeClose(x).Some? && IsBody(BeforeClose(x).value) {
      var w := BeforeClose(x).value;
      BodyHasNoBrackets(w);
      BeforeCloseIs(x, w);
      BodyIsMention(x, w);
    }
  }

  function Shifted(m: Mention, n: nat): Mention {
    m.(start := m.start + n, end := m.end + n)
  }

  lemma ShiftRight(a: Text, x: Text, m: Mention)
    requires IsMention(x, m)
    ensures IsMention(a + x, Shifted(m, |a|))
  {
    assert (a + x)[m.start + |a|..m.end + |a|] == x[m.start..m.end];
  }

  lemma ShiftLeft(a: Text, x: Text, m: Mention)
    requires IsMention(a + x, m) && |a| <= m.start
    ensures IsMention(x, m.(start := m.start - |a|, end := m.end - |a|))
  {
    assert (a + x)[m.start..m.end] == x[m.start - |a|..m.end - |a|];
  }

  /** Text without opening brackets in front adds no mention and takes none away. */
  lemma BehindPlainText(a: Text, x: Text)
    requires OPEN !in a
    ensures HoldsMention(a + x) <==> HoldsMention(x)
  {
    if m :| IsMention(x, m) {
      ShiftRight(a, x, m);
    }
    if m :| IsMention(a + x, m) {
      MatchLayout(a + x, m);
      assert forall i :: 0 <= i < |a| ==> (a + x)[i] == a[i] && a[i] in a;
      ShiftLeft(a, x, m);
    }
  }

  /** A bracket in front adds exactly a mention it starts itself. */
  lemma BehindBracket(x: Text)
    ensures HoldsMention([OPEN] + x) <==> HoldsMention(x) || (BeforeClose(x).Some? && IsBody(BeforeClose(x).value))
  {
    FrontMention(x);
    if m :| IsMention(x, m) {
      ShiftRight([OPEN], x, m);
    }
    if m :| IsMention([OPEN] + x, m) && m.start > 0 {
      ShiftLeft([OPEN], x, m);
    }
  }

  // ---- The two renderings ------------------------------------------------------------------------------------

  ghost predicate ForgesFrom(text: Text, p: nat) {
    exists q :: p <= q && Forges(text, q)
  }

  /** Skipping positions that forge nothing. */
  lemma ForgesBeyond(text: Text, p: nat, next: nat)
    requires p <= next
    requires forall q :: p <= q < next ==> !Forges(text, q)
    ensures ForgesFrom(text, p) <==> ForgesFrom(text, next)
  {
    if ForgesFrom(text, p) {
      var q :| p <= q && Forges(text, q);
      assert next <= q;
    }
  }

  lemma ForgesHereOrBeyond(text: Text, p: nat)
    ensures ForgesFrom(text, p) <==> Forges(text, p) || ForgesFrom(text, p + 1)
  {
    if ForgesFrom(text, p) {
      var q :| p <= q && Forges(text, q);
      assert q == p || p + 1 <= q;
    }
  }

  lemma AtMention(text: Text, p: nat)
    requires p < |text| && MentionAt(text, p).Some?
    ensures var m := MentionAt(text, p).value;
      && p < m.end <= |text|
      && (HoldsMention(RenderFrom(text, p)) <==> HoldsMention(RenderFrom(text, m.end)))
      && (ForgesFrom(text, p) <==> ForgesFrom(text, m.end))
  {
    var m := MentionAt(text, p).value;
    LabelHasNoBrackets(text, p);
    BehindPlainText(m.authoredLabel, RenderFrom(text, m.end));
    ForgesBeyond(text, p, m.end);
  }

  lemma AtStray(text: Text, p: nat)
    requires Stray(text, p)
    ensures HoldsMention(RenderFrom(text, p)) <==> HoldsMention(RenderFrom(text, p + 1)) || Forges(text, p)
  {
    RenderUnit(text, p);
    SpelledIsRendered(text, p + 1);
    BehindBracket(RenderFrom(text, p + 1));
  }

  lemma AtPlainUnit(text: Text, p: nat)
    requires p < |text| && MentionAt(text, p).None? && text[p] != OPEN
    ensures HoldsMention(RenderFrom(text, p)) <==> HoldsMention(RenderFrom(text, p + 1))
    ensures !Forges(text, p)
  {
    RenderUnit(text, p);
    BehindPlainText([text[p]], RenderFrom(text, p + 1));
  }

  /** From a position outside mentions on, the rendering holds a mention exactly if some stray bracket forges one. */
  lemma {:induction false} RenderedMentions(text: Text, p: nat)
    ensures HoldsMention(RenderFrom(text, p)) <==> ForgesFrom(text, p)
    decreases |text| - p
  {
    if p >= |text| {
      assert RenderFrom(text, p) == [];
    } else if MentionAt(text, p).Some? {
      AtMention(text, p);
      RenderedMentions(text, MentionAt(text, p).value.end);
    } else {
      ForgesHereOrBeyond(text, p);
      RenderedMentions(text, p + 1);
      if text[p] == OPEN {
        AtStray(text, p);
      } else {
        AtPlainUnit(text, p);
      }
    }
  }

  /**
   A second rendering changes something exactly if, in the original text, some stray bracket is followed, up to
   the next closing bracket outside any mention and with no stray bracket between, by plain units and whole
   mentions that spell the body of a mention.
   */
  lemma RenderTwice(text: Text)
    ensures Render(Render(text)) != Render(text) <==> exists p: nat :: Forges(text, p)
  {
    RenderFixedIffPlain(Render(text));
    RenderedMentions(text, 0);
    if p: nat :| Forges(text, p) {
      assert 0 <= p && Forges(text, p);
    }
  }

  /** A text without stray brackets is settled by one rendering. */
  lemma NoStrayNoChange(text: Text)
    requires forall p: nat :: !Stray(text, p)
    ensures Render(Render(text)) == Render(text)
  {
    RenderTwice(text);
  }
}
