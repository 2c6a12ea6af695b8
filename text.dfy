/**
 * The JavaScript string operations the core relies on, written out over
 * `seq<char>`: whitespace trimming, prefix tests, `replaceAll`, decimal
 * rendering of numbers (`String(n)`) and `padStart`.
 */
module Text {

  /**
   * The code points ECMAScript counts as WhiteSpace or LineTerminator:
   * exactly what `String.prototype.trim` removes and what `\s` matches.
   */
  predicate IsSpace(c: char) {
    c == '\t' || c == '\n' || c == '\U{000B}' || c == '\U{000C}' || c == '\r' ||
    c == ' ' || c == '\U{00A0}' || c == '\U{1680}' ||
    ('\U{2000}' <= c <= '\U{200A}') ||
    c == '\U{2028}' || c == '\U{2029}' || c == '\U{202F}' || c == '\U{205F}' ||
    c == '\U{3000}' || c == '\U{FEFF}'
  }

  /** Leading whitespace removed (the regular expression `^\s*`). */
  function TrimStart(s: string): string
    decreases |s|
  {
    if s != [] && IsSpace(s[0]) then TrimStart(s[1..]) else s
  }

  /** Trailing whitespace removed. */
  function TrimEnd(s: string): string
    decreases |s|
  {
    if s != [] && IsSpace(s[|s| - 1]) then TrimEnd(s[..|s| - 1]) else s
  }

  /** `String.prototype.trim`: whitespace removed at both ends. */
  function Trim(s: string): string
  {
    TrimEnd(TrimStart(s))
  }

  /** Every character is whitespace. */
  predicate AllSpace(s: string) {
    forall i :: 0 <= i < |s| ==> IsSpace(s[i])
  }

  /** `TrimStart` removes exactly the leading run of whitespace. */
  lemma {:induction false} TrimStartSpec(s: string)
    ensures |TrimStart(s)| <= |s| && TrimStart(s) == s[|s| - |TrimStart(s)|..]
    ensures TrimStart(s) == [] || !IsSpace(TrimStart(s)[0])
    ensures AllSpace(s[..|s| - |TrimStart(s)|])
    decreases |s|
  {
    if s != [] && IsSpace(s[0]) {
      TrimStartSpec(s[1..]);
      var k := |s[1..]| - |TrimStart(s[1..])|;
      assert s[..k + 1] == [s[0]] + s[1..][..k];
    }
  }

  /** `TrimEnd` removes exactly the trailing run of whitespace. */
  lemma {:induction false} TrimEndSpec(s: string)
    ensures |TrimEnd(s)| <= |s| && TrimEnd(s) == s[..|TrimEnd(s)|]
    ensures TrimEnd(s) == [] || !IsSpace(TrimEnd(s)[|TrimEnd(s)| - 1])
    ensures AllSpace(s[|TrimEnd(s)|..])
    decreases |s|
  {
    if s != [] && IsSpace(s[|s| - 1]) {
      var p := s[..|s| - 1];
      TrimEndSpec(p);
      assert s[|TrimEnd(p)|..] == p[|TrimEnd(p)|..] + [s[|s| - 1]];
    }
  }

  /**
   * `trim` keeps a contiguous middle part of the text, starting where the
   * leading whitespace ends: what it removes at either end is whitespace.
   */
  lemma {:induction false} TrimSpec(s: string)
    ensures var r := Trim(s); var k := |s| - |TrimStart(s)|;
      0 <= k && k + |r| <= |s| && s[k..k + |r|] == r &&
      AllSpace(s[..k]) && AllSpace(s[k + |r|..])
  {
    var a := TrimStart(s);
    TrimStartSpec(s);
    TrimEndSpec(a);
    var r := TrimEnd(a);
    var k := |s| - |a|;
    assert s[k..k + |r|] == a[..|r|];
    assert s[k + |r|..] == a[|r|..];
  }

  /** What `trim` keeps neither starts nor ends with whitespace. */
  lemma {:induction false} TrimEnds(s: string)
    ensures Trim(s) == [] || (!IsSpace(Trim(s)[0]) && !IsSpace(Trim(s)[|Trim(s)| - 1]))
  {
    var a := TrimStart(s);
    TrimStartSpec(s);
    TrimEndSpec(a);
    var r := TrimEnd(a);
    if r != [] {
      assert r[0] == a[0];
    }
  }

  /** Text without whitespace at its ends is left as it is. */
  lemma {:induction false} TrimNoop(s: string)
    requires s == [] || (!IsSpace(s[0]) && !IsSpace(s[|s| - 1]))
    ensures Trim(s) == s
  {
  }

  // ----- sequence algebra -----

  lemma {:induction false} AppendAssoc<T>(a: seq<T>, b: seq<T>, c: seq<T>)
    ensures a + (b + c) == (a + b) + c
  {
  }

  lemma {:induction false} EmptyPrefix<T>(s: seq<T>)
    ensures [] + s == s
  {
  }

  /** A non-empty sequence is its head followed by its tail, in front of anything. */
  lemma {:induction false} HeadTail<T>(a: seq<T>, rest: seq<T>)
    requires |a| > 0
    ensures [a[0]] + (a[1..] + rest) == a + rest
  {
    assert a == [a[0]] + a[1..];
    AppendAssoc([a[0]], a[1..], rest);
  }

  /** `s.startsWith(p)`. */
  predicate StartsWith(s: string, p: string) {
    p <= s
  }

  /** `pat` occurs in `s` starting at index `i`. */
  predicate OccursAt(s: string, pat: string, i: int) {
    0 <= i <= |s| && pat <= s[i..]
  }

  predicate Occurs(s: string, pat: string) {
    exists i :: 0 <= i <= |s| && OccursAt(s, pat, i)
  }

  /**
   * The replacement text for one occurrence (`GetSubstitution` of the
   * ECMAScript standard, with no capture groups): `$$` gives `$`, `$&` the
   * matched text, `` $` `` the text before the occurrence and `$'` the text
   * after it; any other `$` is kept as it is.
   */
  function Expand(rep: string, before: string, matched: string, after: string): string
    decreases |rep|
  {
    if |rep| < 2 then rep
    else if rep[0] == '$' && rep[1] == '$' then "$" + Expand(rep[2..], before, matched, after)
    else if rep[0] == '$' && rep[1] == '&' then matched + Expand(rep[2..], before, matched, after)
    else if rep[0] == '$' && rep[1] == '`' then before + Expand(rep[2..], before, matched, after)
    else if rep[0] == '$' && rep[1] == '\'' then after + Expand(rep[2..], before, matched, after)
    else [rep[0]] + Expand(rep[1..], before, matched, after)
  }

  /** A replacement without `$` is inserted as it is. */
  lemma {:induction false} ExpandLiteral(rep: string, before: string, matched: string, after: string)
    requires '$' !in rep
    ensures Expand(rep, before, matched, after) == rep
    decreases |rep|
  {
    if |rep| >= 2 {
      assert rep[0] != '$';
      ExpandLiteral(rep[1..], before, matched, after);
      assert rep == [rep[0]] + rep[1..];
    }
  }

  /** `$&` puts back the matched text. */
  lemma {:induction false} ExpandMatched(before: string, matched: string, after: string)
    ensures Expand("$&", before, matched, after) == matched
  {
    var rep := "$&";
    assert rep[0] == '$' && rep[1] == '&' && rep[2..] == [];
  }

  /**
   * `s.replaceAll(pat, rep)` for a non-empty string pattern: occurrences
   * are found left to right and do not overlap; the scan resumes after
   * each replaced occurrence, and each is replaced by the expansion of
   * `rep` there.
   */
  function ReplaceAll(s: string, pat: string, rep: string): (r: string)
    requires |pat| > 0
    ensures !Occurs(s, pat) ==> r == s
  {
    ReplaceAllFrom("", s, pat, rep)
  }

  /** The scan of `replaceAll` with `done` already passed over: `done + s` is the original text. */
  function ReplaceAllFrom(done: string, s: string, pat: string, rep: string): (r: string)
    requires |pat| > 0
    ensures !Occurs(s, pat) ==> r == s
    decreases |s|
  {
    if |s| < |pat| then
      s
    else if pat <= s then
      assert OccursAt(s, pat, 0);
      Expand(rep, done, pat, s[|pat|..]) + ReplaceAllFrom(done + pat, s[|pat|..], pat, rep)
    else
      var tail := ReplaceAllFrom(done + [s[0]], s[1..], pat, rep);
      assert forall i :: OccursAt(s[1..], pat, i) ==> OccursAt(s, pat, i + 1);
      [s[0]] + tail
  }

  /**
   * The step of `replaceAll`: when no occurrence of `pat` starts inside
   * `a`, the first one is the one right after `a`; it is swapped for the
   * expansion of `rep` there, and the scan goes on after it.  Applied
   * again to the rest, this replaces every occurrence, left to right and
   * without overlap.
   */
  lemma {:induction false} ReplaceAllStep(a: string, pat: string, b: string, rep: string)
    requires |pat| > 0
    requires forall i :: 0 <= i < |a| ==> !OccursAt(a + pat + b, pat, i)
    ensures ReplaceAll(a + pat + b, pat, rep) == a + Expand(rep, a, pat, b) + ReplaceAllFrom(a + pat, b, pat, rep)
  {
    EmptyPrefix(a);
    ReplaceAllFromStep("", a, pat, b, rep);
  }

  /**
   * With a single occurrence of `pat` in `a + pat + b`, the one that
   * follows `a`, `replaceAll` swaps exactly that occurrence for the
   * expansion of `rep` between `a` and `b`.
   */
  lemma {:induction false} ReplaceAllPast(a: string, pat: string, b: string, rep: string)
    requires |pat| > 0
    requires forall i :: 0 <= i < |a| ==> !OccursAt(a + pat + b, pat, i)
    requires !Occurs(b, pat)
    ensures ReplaceAll(a + pat + b, pat, rep) == a + Expand(rep, a, pat, b) + b
  {
    ReplaceAllStep(a, pat, b, rep);
  }

  /** Two occurrences with none between them: both are replaced, and the text between is kept. */
  lemma {:induction false} ReplaceAllTwice(pat: string, m: string, rep: string)
    requires |pat| > 0 && '$' !in rep
    requires forall i :: 0 <= i < |m| ==> !OccursAt(m + pat, pat, i)
    ensures ReplaceAll(pat + m + pat, pat, rep) == rep + m + rep
  {
    var e: string := [];
    var s := pat + m + pat;
    assert s == e + pat + (m + pat);
    ReplaceAllStep(e, pat, m + pat, rep);
    ExpandLiteral(rep, e, pat, m + pat);
    ReplaceAllLast(pat, m, rep);
    var tail := ReplaceAllFrom(e + pat, m + pat, pat, rep);
    assert tail == m + rep;
    calc {
      ReplaceAll(s, pat, rep);
      e + rep + tail;
      rep + (m + rep);
    }
    AppendAssoc(rep, m, rep);
  }

  lemma {:induction false} ReplaceAllLast(pat: string, m: string, rep: string)
    requires |pat| > 0 && '$' !in rep
    requires forall i :: 0 <= i < |m| ==> !OccursAt(m + pat, pat, i)
    ensures ReplaceAllFrom([] + pat, m + pat, pat, rep) == m + rep
  {
    var e: string := [];
    assert m + pat == m + pat + e;
    ReplaceAllFromStep([] + pat, m, pat, e, rep);
    ExpandLiteral(rep, [] + pat + m, pat, e);
    assert ReplaceAllFrom([] + pat + m + pat, e, pat, rep) == e;
    assert m + rep + e == m + rep;
  }

  lemma {:induction false} ReplaceAllFromStep(done: string, a: string, pat: string, b: string, rep: string)
    requires |pat| > 0
    requires forall i :: 0 <= i < |a| ==> !OccursAt(a + pat + b, pat, i)
    ensures ReplaceAllFrom(done, a + pat + b, pat, rep)
      == a + Expand(rep, done + a, pat, b) + ReplaceAllFrom(done + a + pat, b, pat, rep)
    decreases |a|
  {
    if a == [] {
      assert a + pat + b == pat + b;
      assert done + a == done;
      ReplaceAllHere(done, pat, b, rep);
    } else {
      var s := a + pat + b;
      ReplaceAllSkip(done, s, pat, rep);
      ShiftNoOccurrence(a, pat, b);
      ReplaceAllFromStep(done + [a[0]], a[1..], pat, b, rep);
      SkipJoin(done, a, pat, b, Expand(rep, done + a, pat, b), ReplaceAllFrom(done + a + pat, b, pat, rep));
    }
  }

  /** Moving the first character of `a` from the text still to scan to the text passed over. */
  lemma {:induction false} SkipJoin(done: string, a: string, pat: string, b: string, e: string, rest: string)
    requires |a| > 0
    ensures (a + pat + b)[0] == a[0]
    ensures done + [a[0]] + a[1..] == done + a
    ensures [a[0]] + (a[1..] + e + rest) == a + e + rest
  {
    assert a == [a[0]] + a[1..];
    AppendAssoc(done, [a[0]], a[1..]);
    AppendAssoc(a[1..], e, rest);
    AppendAssoc(a, e, rest);
    HeadTail(a, e + rest);
  }

  lemma {:induction false} ReplaceAllHere(done: string, pat: string, b: string, rep: string)
    requires |pat| > 0
    ensures ReplaceAllFrom(done, pat + b, pat, rep) == Expand(rep, done, pat, b) + ReplaceAllFrom(done + pat, b, pat, rep)
  {
    var s := pat + b;
    assert pat <= s;
    assert s[|pat|..] == b;
  }

  /** Where `pat` does not start the text, `replaceAll` keeps the first character and moves on. */
  lemma {:induction false} ReplaceAllSkip(done: string, s: string, pat: string, rep: string)
    requires |pat| > 0 && |s| >= |pat| && !OccursAt(s, pat, 0)
    ensures ReplaceAllFrom(done, s, pat, rep) == [s[0]] + ReplaceAllFrom(done + [s[0]], s[1..], pat, rep)
  {
  }

  lemma {:induction false} ShiftNoOccurrence(a: string, pat: string, b: string)
    requires |a| > 0
    requires forall i :: 0 <= i < |a| ==> !OccursAt(a + pat + b, pat, i)
    ensures (a + pat + b)[1..] == a[1..] + pat + b
    ensures forall i :: 0 <= i < |a| - 1 ==> !OccursAt(a[1..] + pat + b, pat, i)
  {
    var s := a + pat + b;
    assert s[1..] == a[1..] + pat + b;
    forall i | 0 <= i < |a| - 1
      ensures !OccursAt(a[1..] + pat + b, pat, i)
    {
      assert !OccursAt(s, pat, i + 1);
      var t := s[1..];
      assert t[i..] == s[i + 1..];
    }
  }

  /** `pat` cannot occur where the text has a different first character. */
  lemma {:induction false} FirstCharDiffers(s: string, pat: string, i: int)
    requires 0 <= i < |s| && |pat| > 0 && s[i] != pat[0]
    ensures !OccursAt(s, pat, i)
  {
  }

  /** A text no longer than `pat`, and different from it, does not contain it. */
  lemma {:induction false} TooShortToOccur(s: string, pat: string)
    requires |s| <= |pat| && s != pat
    ensures !Occurs(s, pat)
  {
  }

  /** Replacing a pattern without `$` by itself changes nothing. */
  lemma {:induction false} ReplaceAllSelf(s: string, pat: string)
    requires |pat| > 0 && '$' !in pat
    ensures ReplaceAll(s, pat, pat) == s
  {
    ReplaceAllFromSelf("", s, pat);
  }

  lemma {:induction false} ReplaceAllFromSelf(done: string, s: string, pat: string)
    requires |pat| > 0 && '$' !in pat
    ensures ReplaceAllFrom(done, s, pat, pat) == s
    decreases |s|
  {
    if |s| >= |pat| {
      if pat <= s {
        ExpandLiteral(pat, done, pat, s[|pat|..]);
        ReplaceAllFromSelf(done + pat, s[|pat|..], pat);
        assert s == pat + s[|pat|..];
      } else {
        ReplaceAllFromSelf(done + [s[0]], s[1..], pat);
        assert s == [s[0]] + s[1..];
      }
    }
  }

  /** Concatenation of a sequence of strings, in order. */
  function Concat(xs: seq<string>): string
  {
    if xs == [] then "" else Concat(xs[..|xs| - 1]) + xs[|xs| - 1]
  }

  lemma {:induction false} ConcatAppend(xs: seq<string>, ys: seq<string>)
    ensures Concat(xs + ys) == Concat(xs) + Concat(ys)
    decreases |ys|
  {
    if ys != [] {
      var ys' := ys[..|ys| - 1];
      assert (xs + ys)[..|xs + ys| - 1] == xs + ys';
      ConcatAppend(xs, ys');
    } else {
      assert xs + ys == xs;
    }
  }

  // ----- decimal numbers -----

  predicate IsDigit(c: char) { '0' <= c <= '9' }

  predicate IsDigits(s: string) { forall i :: 0 <= i < |s| ==> IsDigit(s[i]) }

  function DigitChar(d: nat): (c: char)
    requires d < 10
    ensures IsDigit(c)
  {
    "0123456789"[d]
  }

  function DigitValue(c: char): (d: nat)
    requires IsDigit(c)
    ensures d < 10
  {
    (c as int - '0' as int) as nat
  }

  /** `String(n)` for a non-negative integer: shortest decimal form. */
  function NatStr(n: nat): (r: string)
    ensures |r| >= 1 && IsDigits(r)
    ensures r[0] == '0' ==> n == 0
  {
    if n < 10 then [DigitChar(n)] else NatStr(n / 10) + [DigitChar(n % 10)]
  }

  /** `String(n)` for any integer. */
  function IntStr(n: int): string
  {
    if n < 0 then "-" + NatStr(-n) else NatStr(n)
  }

  /** The value of a string of decimal digits (`Number` on such a string). */
  function ParseDigits(s: string): nat
    requires IsDigits(s)
  {
    if s == [] then 0 else 10 * ParseDigits(s[..|s| - 1]) + DigitValue(s[|s| - 1])
  }

  /** `Number(s)` on the strings `IntStr` produces. */
  function ParseInt(s: string): int
    requires IsDigits(s) || (|s| > 0 && s[0] == '-' && IsDigits(s[1..]))
  {
    if |s| > 0 && s[0] == '-' then -(ParseDigits(s[1..]) as int) else ParseDigits(s)
  }

  lemma {:induction false} DigitRoundTrip(d: nat)
    requires d < 10
    ensures DigitValue(DigitChar(d)) == d
  {
  }

  /** `Number(String(n)) == n` for non-negative integers. */
  lemma {:induction false} ParseNatStr(n: nat)
    ensures ParseDigits(NatStr(n)) == n
  {
    DigitRoundTrip(n % 10);
    if n >= 10 {
      ParseNatStr(n / 10);
      var s := NatStr(n);
      assert s[..|s| - 1] == NatStr(n / 10);
    }
  }

  /** `Number(String(n)) == n` for every integer: the decimal text a value is stored as reads back as that value. */
  lemma {:induction false} ParseIntStr(n: int)
    ensures IsDigits(IntStr(n)) || (|IntStr(n)| > 0 && IntStr(n)[0] == '-' && IsDigits(IntStr(n)[1..]))
    ensures ParseInt(IntStr(n)) == n
  {
    if n < 0 {
      ParseNegativeStr(n);
    } else {
      ParseNatStr(n);
    }
  }

  lemma {:induction false} ParseNegativeStr(n: int)
    requires n < 0
    ensures |IntStr(n)| > 0 && IntStr(n)[0] == '-' && IntStr(n)[1..] == NatStr(-n)
    ensures ParseInt(IntStr(n)) == n
  {
    var m: nat := -n;
    var t := NatStr(m);
    assert IntStr(n) == "-" + t;
    ParseNatStr(m);
    ParseMinus(t);
  }

  /** A minus sign in front of a digit string negates its value. */
  lemma {:induction false} ParseMinus(t: string)
    requires IsDigits(t)
    ensures var s := "-" + t; s[0] == '-' && s[1..] == t && ParseInt(s) == -(ParseDigits(t) as int)
  {
    var s := "-" + t;
    assert s[1..] == t;
  }

  /** `s.padStart(width, [c])`. */
  function PadStart(s: string, width: nat, c: char): (r: string)
    ensures |r| == if |s| >= width then |s| else width
    ensures r[|r| - |s|..] == s
    ensures forall i :: 0 <= i < |r| - |s| ==> r[i] == c
  {
    if |s| >= width then s else seq(width - |s|, _ => c) + s
  }

  /** Leading zeros do not change the value of a digit string. */
  lemma {:induction false} ParseLeadingZero(s: string)
    requires IsDigits(s)
    ensures IsDigits("0" + s) && ParseDigits("0" + s) == ParseDigits(s)
    decreases |s|
  {
    if s != [] {
      var z := "0" + s;
      assert z[..|z| - 1] == "0" + s[..|s| - 1];
      ParseLeadingZero(s[..|s| - 1]);
    }
  }

  /** `String(n).padStart(2, '0')`. */
  function Pad2(n: nat): string
  {
    PadStart(NatStr(n), 2, '0')
  }

  /** A two-digit field reads back as the number it renders, and has exactly two characters below 100. */
  lemma {:induction false} Pad2RoundTrip(n: nat)
    ensures IsDigits(Pad2(n)) && ParseDigits(Pad2(n)) == n
    ensures |Pad2(n)| >= 2 && (n < 100 ==> |Pad2(n)| == 2)
  {
    ParseNatStr(n);
    if n < 10 {
      assert Pad2(n) == "0" + NatStr(n);
      ParseLeadingZero(NatStr(n));
    } else {
      assert |NatStr(n / 10)| >= 1;
      if n < 100 {
        assert NatStr(n / 10) == [DigitChar(n / 10)];
      }
    }
  }

  /** Distinct integers render differently. */
  lemma {:induction false} IntStrInjective(a: int, b: int)
    requires IntStr(a) == IntStr(b)
    ensures a == b
  {
    ParseIntStr(a);
    ParseIntStr(b);
  }

  /** Distinct numbers pad to different two-digit fields. */
  lemma {:induction false} Pad2Injective(a: nat, b: nat)
    requires Pad2(a) == Pad2(b)
    ensures a == b
  {
    Pad2RoundTrip(a);
    Pad2RoundTrip(b);
  }
}
