/**
 Stream resume ids: "a<activity>:i<inbox>" with both numbers in decimal without leading zeros, as the
 client sends them back in Last-Event-ID (HTML Living Standard, section 9.2).
 */
module ResumeId {
  import opened Common

  /** The largest integer that Number.isSafeInteger accepts. */
  const MAX_SAFE_INTEGER: nat := 0x1F_FFFF_FFFF_FFFF

  datatype Cursor = Cursor(activitySeq: Option<nat>, inboxSeq: Option<nat>)

  // ---- Decimal numerals -------------------------------------------------------------------------

  function DigitChar(d: nat): char
    requires d < 10
  {
    '0' + d as char
  }

  predicate IsDigit(c: char) {
    '0' <= c <= '9'
  }

  function DigitValue(c: char): nat
    requires IsDigit(c)
  {
    (c - '0') as nat
  }

  function Decimal(n: nat): string {
    if n < 10 then [DigitChar(n)] else Decimal(n / 10) + [DigitChar(n % 10)]
  }

  predicate AllDigits(s: string) {
    forall i :: 0 <= i < |s| ==> IsDigit(s[i])
  }

  /** What /^(0|[1-9]\d*)$/ matches. */
  predicate IsDecimal(s: string) {
    s != "" && AllDigits(s) && (s[0] == '0' ==> |s| == 1)
  }

  function Value(s: string): nat
    requires AllDigits(s)
  {
    if s == "" then 0 else 10 * Value(s[..|s| - 1]) + DigitValue(s[|s| - 1])
  }

  function ParseSafeNonNegativeInteger(raw: string): Option<nat> {
    if !IsDecimal(raw) || Value(raw) > MAX_SAFE_INTEGER then None else Some(Value(raw))
  }

  lemma {:induction false} ValueOfDecimal(n: nat)
    ensures IsDecimal(Decimal(n)) && Value(Decimal(n)) == n
    ensures n > 0 ==> Decimal(n)[0] != '0'
  {
    if n >= 10 {
      ValueOfDecimal(n / 10);
      assert Decimal(n)[..|Decimal(n)| - 1] == Decimal(n / 10);
    } else {
      assert Decimal(n)[..0] == "";
    }
  }

  lemma {:induction false} DecimalOfValue(s: string)
    requires IsDecimal(s)
    ensures Decimal(Value(s)) == s
    ensures s[0] != '0' ==> Value(s) > 0
  {
    if |s| == 1 {
      assert s[..0] == "";
      assert s == [DigitChar(Value(s))];
    } else {
      var front := s[..|s| - 1];
      DecimalOfValue(front);
      assert s == front + [s[|s| - 1]];
    }
  }

  // ---- Resume ids ------------------------------------------------------------------------------------

  function OrZero(n: Option<nat>): nat {
    if n.Some? then n.value else 0
  }

  function ComposeStreamResumeId(activitySeq: Option<nat>, inboxSeq: Option<nat>): string {
    "a" + Decimal(OrZero(activitySeq)) + ":i" + Decimal(OrZero(inboxSeq))
  }

  /** The index of the first character from `from` on that is no digit. */
  function DigitRun(s: string, from: nat): (to: nat)
    requires from <= |s|
    ensures from <= to <= |s|
    ensures AllDigits(s[from..to])
    ensures to < |s| ==> !IsDigit(s[to])
    decreases |s| - from
  {
    if from < |s| && IsDigit(s[from]) then DigitRun(s, from + 1) else from
  }

  /** The two groups of /^a(0|[1-9]\d*):i(0|[1-9]\d*)$/. */
  function MatchComposite(s: string): Option<(string, string)> {
    if s == "" || s[0] != 'a' then None
    else
      var k := DigitRun(s, 1);
      if k + 1 < |s| && s[k] == ':' && s[k + 1] == 'i' && IsDecimal(s[1..k]) && IsDecimal(s[k + 2..])
      then Some((s[1..k], s[k + 2..]))
      else None
  }

  lemma {:induction false} DigitRunEnds(s: string, from: nat, to: nat)
    requires from <= to < |s| && AllDigits(s[from..to]) && !IsDigit(s[to])
    ensures DigitRun(s, from) == to
    decreases |s| - from
  {
    if from < to {
      assert s[from] == s[from..to][0];
      assert s[from + 1..to] == s[from..to][1..];
      DigitRunEnds(s, from + 1, to);
    }
  }

  /** The groups are the only two numerals that spell the id. */
  lemma MatchesComposite(s: string, p: string, q: string)
    ensures MatchComposite(s) == Some((p, q)) <==> IsDecimal(p) && IsDecimal(q) && s == "a" + p + ":i" + q
  {
    if IsDecimal(p) && IsDecimal(q) && s == "a" + p + ":i" + q {
      var k := |p| + 1;
      assert s[1..k] == p && s[k] == ':' && s[k + 1] == 'i';
      DigitRunEnds(s, 1, k);
      assert s[1..k] == p && s[k + 2..] == q;
    }
    if MatchComposite(s) == Some((p, q)) {
      var k := DigitRun(s, 1);
      assert s == [s[0]] + s[1..k] + [s[k], s[k + 1]] + s[k + 2..];
    }
  }

  /** `decoded` is what decoding `value` as an older base64 cursor yields, if that succeeds. */
  function ParseStreamResumeId(value: Option<string>, allowLegacy: bool, decoded: Option<string>): Option<Cursor> {
    if value.None? || value.value == "latest" then Some(Cursor(None, None))
    else
      match MatchComposite(value.value)
      case Some((p, q)) =>
        var activitySeq := ParseSafeNonNegativeInteger(p);
        var inboxSeq := ParseSafeNonNegativeInteger(q);
        if activitySeq.Some? && inboxSeq.Some? then Some(Cursor(activitySeq, inboxSeq)) else None
      case None =>
        var legacy := if IsDecimal(value.value) then value else decoded;
        if !allowLegacy || legacy.None? then None
        else
          var activitySeq := ParseSafeNonNegativeInteger(legacy.value);
          if activitySeq.None? then None else Some(Cursor(activitySeq, None))
  }

  /** Parsing undoes composing exactly on safe integers; an id with a larger number is refused. */
  lemma ParseAfterCompose(a: nat, i: nat, allowLegacy: bool, decoded: Option<string>)
    ensures ParseStreamResumeId(Some(ComposeStreamResumeId(Some(a), Some(i))), allowLegacy, decoded)
      == if a <= MAX_SAFE_INTEGER && i <= MAX_SAFE_INTEGER then Some(Cursor(Some(a), Some(i))) else None
  {
    ValueOfDecimal(a);
    ValueOfDecimal(i);
    MatchesComposite(ComposeStreamResumeId(Some(a), Some(i)), Decimal(a), Decimal(i));
    assert ComposeStreamResumeId(Some(a), Some(i))[1] != "latest"[1];
  }

  /** Composing undoes parsing on every id that parses to two numbers, and both are safe. */
  lemma ComposeAfterParse(value: string, allowLegacy: bool, decoded: Option<string>)
    requires ParseStreamResumeId(Some(value), allowLegacy, decoded).Some?
    ensures var cursor := ParseStreamResumeId(Some(value), allowLegacy, decoded).value;
      cursor.inboxSeq.Some? ==>
        && cursor.activitySeq.Some?
        && cursor.activitySeq.value <= MAX_SAFE_INTEGER && cursor.inboxSeq.value <= MAX_SAFE_INTEGER
        && ComposeStreamResumeId(cursor.activitySeq, cursor.inboxSeq) == value
  {
    var cursor := ParseStreamResumeId(Some(value), allowLegacy, decoded).value;
    if cursor.inboxSeq.Some? {
      var (p, q) := MatchComposite(value).value;
      MatchesComposite(value, p, q);
      DecimalOfValue(p);
      DecimalOfValue(q);
    }
  }

  lemma NumeralIs(s: string, n: nat)
    requires IsDecimal(s)
    ensures Value(s) == n <==> s == Decimal(n)
  {
    DecimalOfValue(s);
    ValueOfDecimal(n);
  }

  /** A decimal numeral is not a composite id, nor "latest". */
  lemma NumeralsAreNeither(s: string)
    requires IsDecimal(s)
    ensures MatchComposite(s).None? && s != "latest"
  {
    assert IsDigit(s[0]) && !IsDigit('a') && "latest"[0] == 'l';
  }

  /**
   Which ids mean what. None and "latest" name no position. A composite id names two, if both are safe. An older
   cursor, a numeral or what decodes to one, names an activity position where older cursors are allowed.
   */
  lemma ParseMeans(value: Option<string>, allowLegacy: bool, decoded: Option<string>, a: nat, i: nat)
    ensures var r := ParseStreamResumeId(value, allowLegacy, decoded);
      && (r == Some(Cursor(None, None)) <==> value.None? || value == Some("latest"))
      && (r == Some(Cursor(Some(a), Some(i))) <==>
            && value == Some("a" + Decimal(a) + ":i" + Decimal(i))
            && a <= 9_007_199_254_740_991 && i <= 9_007_199_254_740_991)
      && (r == Some(Cursor(Some(a), None)) <==>
            && allowLegacy && a <= 9_007_199_254_740_991 && value.Some? && value.value != "latest"
            && (value.value == Decimal(a)
                || (decoded == Some(Decimal(a)) && !IsDecimal(value.value) && MatchComposite(value.value).None?)))
      && (r.Some? && r.value.activitySeq.None? ==> r.value.inboxSeq.None?)
  {
    CompositeIsComposite(a, i);
    if value.Some? && value.value != "latest" {
      if MatchComposite(value.value).Some? {
        CompositeMeans(value.value, allowLegacy, decoded, a, i);
        DecimalIsNot(value.value, a);
      } else {
        OlderMeans(value.value, allowLegacy, decoded, a);
      }
    }
  }

  lemma CompositeIsComposite(a: nat, i: nat)
    ensures var s := "a" + Decimal(a) + ":i" + Decimal(i);
      MatchComposite(s) == Some((Decimal(a), Decimal(i))) && s != "latest"
  {
    ValueOfDecimal(a);
    ValueOfDecimal(i);
    MatchesComposite("a" + Decimal(a) + ":i" + Decimal(i), Decimal(a), Decimal(i));
    assert ("a" + Decimal(a) + ":i" + Decimal(i))[0] == 'a' && "latest"[0] == 'l';
  }

  lemma DecimalIsNot(s: string, a: nat)
    requires MatchComposite(s).Some?
    ensures s != Decimal(a)
  {
    ValueOfDecimal(a);
    NumeralsAreNeither(Decimal(a));
  }

  lemma CompositeMeans(s: string, allowLegacy: bool, decoded: Option<string>, a: nat, i: nat)
    requires MatchComposite(s).Some? && s != "latest"
    ensures var r := ParseStreamResumeId(Some(s), allowLegacy, decoded);
      && (r == Some(Cursor(Some(a), Some(i))) <==>
            && s == "a" + Decimal(a) + ":i" + Decimal(i)
            && a <= 9_007_199_254_740_991 && i <= 9_007_199_254_740_991)
      && (r.Some? ==> r.value.activitySeq.Some? && r.value.inboxSeq.Some?)
  {
    var (p, q) := MatchComposite(s).value;
    MatchesComposite(s, p, q);
    NumeralIs(p, a);
    NumeralIs(q, i);
    CompositeIsComposite(a, i);
  }

  lemma OlderMeans(s: string, allowLegacy: bool, decoded: Option<string>, a: nat)
    requires MatchComposite(s).None? && s != "latest"
    ensures ParseStreamResumeId(Some(s), allowLegacy, decoded) == Some(Cursor(Some(a), None)) <==>
      && allowLegacy && a <= 9_007_199_254_740_991
      && (s == Decimal(a) || (decoded == Some(Decimal(a)) && !IsDecimal(s)))
  {
    ValueOfDecimal(a);
    var legacy := if IsDecimal(s) then Some(s) else decoded;
    if legacy.Some? && IsDecimal(legacy.value) {
      NumeralIs(legacy.value, a);
    }
  }
}
