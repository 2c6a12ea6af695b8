/**
 * The upstream event stream as the relay sees it: decoded text split into
 * blank-line-delimited frames (a subset of the `text/event-stream` format
 * of section 9.2 of the WHATWG HTML Living Standard: only `data:` fields
 * are looked at), the rolling buffer that carries an incomplete frame from
 * one read to the next, and the text the relay forwards for a sequence of
 * frames.
 */
module EventStream {
  import opened Wrappers
  import opened Text

  /** The event delimiter the relay splits on. */
  const Delim: string := "\n\n"

  /** The payload that ends the stream (the upstream vendor's convention). */
  const Sentinel: string := "[DONE]"

  predicate DelimAt(s: string, i: int) {
    0 <= i && i + 1 < |s| && s[i] == '\n' && s[i + 1] == '\n'
  }

  predicate HasDelim(s: string) {
    exists i :: 0 <= i < |s| && DelimAt(s, i)
  }

  /**
   * A frame as `split` can produce it: no delimiter inside and no trailing
   * newline (a trailing newline would have joined the delimiter after it).
   */
  predicate FrameOk(f: string) {
    !HasDelim(f) && (f == [] || f[|f| - 1] != '\n')
  }

  /**
   * `s.split("\n\n")`: the delimiter is searched left to right, matches
   * do not overlap, and the pieces between matches are returned in order.
   */
  function Split(s: string): (parts: seq<string>)
    ensures |parts| >= 1
    decreases |s|
  {
    if |s| < 2 then [s]
    else if s[0] == '\n' && s[1] == '\n' then [""] + Split(s[2..])
    else
      var p := Split(s[1..]);
      [[s[0]] + p[0]] + p[1..]
  }

  /** The complete frames of `s`: every piece but the last. */
  function Frames(s: string): seq<string> {
    var p := Split(s);
    p[..|p| - 1]
  }

  /** What `parts.pop()` leaves for the buffer: the last piece. */
  function Rest(s: string): string {
    var p := Split(s);
    p[|p| - 1]
  }

  /** Each frame followed by the delimiter that closed it. */
  function Flatten(fs: seq<string>): string {
    if fs == [] then "" else fs[0] + Delim + Flatten(fs[1..])
  }

  // ----- Split and Flatten are inverse to each other -----

  lemma {:induction false} FlattenCons(f: string, fs: seq<string>)
    ensures Flatten([f] + fs) == f + Delim + Flatten(fs)
  {
    assert ([f] + fs)[1..] == fs;
  }

  /** Splitting loses nothing: the frames, each closed by a delimiter, then the rest, give back the text. */
  lemma {:induction false} SplitReassembles(s: string)
    ensures Flatten(Frames(s)) + Rest(s) == s
    decreases |s|
  {
    if |s| < 2 {
      assert Split(s) == [s];
    } else if s[0] == '\n' && s[1] == '\n' {
      SplitReassembles(s[2..]);
      ReassemblesAtDelim(s);
    } else {
      SplitReassembles(s[1..]);
      ReassemblesAtChar(s);
    }
  }

  lemma {:induction false} ReassemblesAtDelim(s: string)
    requires DelimAt(s, 0)
    requires Flatten(Frames(s[2..])) + Rest(s[2..]) == s[2..]
    ensures Flatten(Frames(s)) + Rest(s) == s
  {
    var p := Split(s[2..]);
    assert Split(s) == [""] + p;
    assert Frames(s) == [""] + p[..|p| - 1];
    FlattenCons("", p[..|p| - 1]);
    assert s == Delim + s[2..];
  }

  lemma {:induction false} ReassemblesAtChar(s: string)
    requires |s| >= 2 && !DelimAt(s, 0)
    requires Flatten(Frames(s[1..])) + Rest(s[1..]) == s[1..]
    ensures Flatten(Frames(s)) + Rest(s) == s
  {
    var p := Split(s[1..]);
    var h := [s[0]] + p[0];
    assert Split(s) == [h] + p[1..];
    assert s == [s[0]] + s[1..];
    if |p| == 1 {
      assert Frames(s) == [];
      assert Rest(s) == h;
      assert Frames(s[1..]) == [] && Rest(s[1..]) == p[0];
    } else {
      ReassemblesAtCharMore(s, p, h);
    }
  }

  lemma {:induction false} ReassemblesAtCharMore(s: string, p: seq<string>, h: string)
    requires |s| >= 2 && p == Split(s[1..]) && |p| > 1 && h == [s[0]] + p[0]
    requires Split(s) == [h] + p[1..]
    requires Flatten(Frames(s[1..])) + Rest(s[1..]) == s[1..]
    ensures Flatten(Frames(s)) + Rest(s) == s
  {
    var mid := p[1..|p| - 1];
    var last := p[|p| - 1];
    assert Frames(s) == [h] + mid;
    assert Rest(s) == last;
    assert Frames(s[1..]) == [p[0]] + mid;
    FlattenCons(h, mid);
    FlattenCons(p[0], mid);
    var f := Flatten(mid);
    assert s[1..] == p[0] + Delim + f + last;
    ConsAssoc(s[0], p[0], Delim, f, last);
    assert s == [s[0]] + s[1..];
  }

  lemma {:induction false} ConsAssoc(x: char, a: string, b: string, c: string, d: string)
    ensures [x] + a + b + c + d == [x] + (a + b + c + d)
  {
  }

  /** The first piece is where `s` starts; an empty first piece followed by more means `s` starts with the delimiter. */
  lemma {:induction false} SplitHead(s: string)
    ensures |Split(s)[0]| <= |s| && s[..|Split(s)[0]|] == Split(s)[0]
    ensures Split(s)[0] == [] && |Split(s)| > 1 ==> DelimAt(s, 0)
    decreases |s|
  {
    if |s| >= 2 && !(s[0] == '\n' && s[1] == '\n') {
      SplitHead(s[1..]);
    }
  }

  /** Every frame `split` produces is well formed, and the piece left for the buffer holds no delimiter. */
  lemma {:induction false} SplitWellFormed(s: string)
    ensures forall i :: 0 <= i < |Split(s)| - 1 ==> FrameOk(Split(s)[i])
    ensures !HasDelim(Rest(s))
    decreases |s|
  {
    var parts := Split(s);
    if |s| < 2 {
      assert !DelimAt(s, 0);
    } else if s[0] == '\n' && s[1] == '\n' {
      SplitWellFormed(s[2..]);
      assert !DelimAt("", 0);
      assert parts == [""] + Split(s[2..]);
    } else {
      var p := Split(s[1..]);
      SplitWellFormed(s[1..]);
      SplitHead(s[1..]);
      var h := [s[0]] + p[0];
      assert parts == [h] + p[1..];
      forall i | 0 <= i < |h| ensures !DelimAt(h, i) {
        if i > 0 { assert DelimAt(h, i) ==> DelimAt(p[0], i - 1); }
        else if |h| >= 2 { assert h[1] == s[1]; }
      }
      if |p| > 1 {
        assert FrameOk(p[0]);
        if p[0] == [] {
          assert DelimAt(s[1..], 0);
          assert h == [s[0]] && s[0] != '\n';
        }
        assert FrameOk(h);
      }
    }
  }

  /** A well-formed frame closed by the delimiter comes back out of `split` as a piece of its own. */
  lemma {:induction false} SplitClosedFrame(f: string, t: string)
    requires FrameOk(f)
    ensures Split(f + Delim + t) == [f] + Split(t)
    decreases |f|
  {
    var s := f + Delim + t;
    if f == [] {
      assert s[2..] == t;
      assert Split(s) == [""] + Split(t);
    } else {
      var f' := f[1..];
      assert !HasDelim(f') by {
        forall i | 0 <= i < |f'| ensures !DelimAt(f', i) { assert !DelimAt(f, i + 1); }
      }
      assert FrameOk(f');
      if |f| == 1 { assert s[1] == '\n' && s[0] != '\n'; }
      else { assert !DelimAt(f, 0); }
      assert s[1..] == f' + Delim + t;
      SplitClosedFrame(f', t);
      assert Split(s) == [[s[0]] + Split(s[1..])[0]] + Split(s[1..])[1..];
      assert [s[0]] + f' == f;
    }
  }

  /** Text without a delimiter is a single piece. */
  lemma {:induction false} SplitNoDelim(r: string)
    requires !HasDelim(r)
    ensures Split(r) == [r]
    decreases |r|
  {
    if |r| >= 2 {
      assert !DelimAt(r, 0);
      var r' := r[1..];
      assert !HasDelim(r') by {
        forall i | 0 <= i < |r'| ensures !DelimAt(r', i) { assert !DelimAt(r, i + 1); }
      }
      SplitNoDelim(r');
      assert Split(r) == [[r[0]] + Split(r')[0]] + Split(r')[1..];
      assert [r[0]] + r' == r;
    }
  }

  /**
   * The other direction of the round trip: well-formed frames, each
   * closed by the delimiter, followed by delimiter-free text, split back
   * into exactly those frames and that text.
   */
  lemma {:induction false} SplitOfFlatten(fs: seq<string>, r: string)
    requires forall i :: 0 <= i < |fs| ==> FrameOk(fs[i])
    requires !HasDelim(r)
    ensures Split(Flatten(fs) + r) == fs + [r]
    ensures Frames(Flatten(fs) + r) == fs && Rest(Flatten(fs) + r) == r
    decreases |fs|
  {
    if fs == [] {
      SplitNoDelim(r);
      assert Flatten(fs) + r == r;
    } else {
      SplitOfFlatten(fs[1..], r);
      assert Flatten(fs) + r == fs[0] + Delim + (Flatten(fs[1..]) + r);
      SplitClosedFrame(fs[0], Flatten(fs[1..]) + r);
      assert fs + [r] == [fs[0]] + (fs[1..] + [r]);
    }
  }

  // ----- the rolling buffer -----

  /**
   * Appending text to `s` re-splits only its last piece: the complete
   * frames of `s` stay complete frames of `s + c`.
   */
  lemma {:induction false} SplitAppend(s: string, c: string)
    ensures Split(s + c) == Frames(s) + Split(Rest(s) + c)
    decreases |s|
  {
    var sc := s + c;
    if |s| < 2 {
      assert Split(s) == [s];
    } else if s[0] == '\n' && s[1] == '\n' {
      assert sc[2..] == s[2..] + c;
      SplitAppend(s[2..], c);
      AppendAtDelim(s, c);
    } else {
      assert sc[1..] == s[1..] + c;
      SplitAppend(s[1..], c);
      SplitReassembles(s[1..]);
      AppendAtChar(s, c);
    }
  }

  lemma {:induction false} AppendAtDelim(s: string, c: string)
    requires DelimAt(s, 0)
    requires Split(s[2..] + c) == Frames(s[2..]) + Split(Rest(s[2..]) + c)
    ensures Split(s + c) == Frames(s) + Split(Rest(s) + c)
  {
    var p := Split(s[2..]);
    var tail := Split(Rest(s[2..]) + c);
    assert (s + c)[2..] == s[2..] + c;
    assert Split(s + c) == [""] + Split(s[2..] + c);
    assert Split(s) == [""] + p;
    assert Frames(s) == [""] + p[..|p| - 1] && Rest(s) == Rest(s[2..]) by {
      assert ([""] + p)[..|p|] == [""] + p[..|p| - 1];
    }
    AppendAssoc([""], p[..|p| - 1], tail);
  }


  lemma {:induction false} AppendAtChar(s: string, c: string)
    requires |s| >= 2 && !DelimAt(s, 0)
    requires Split(s[1..] + c) == Frames(s[1..]) + Split(Rest(s[1..]) + c)
    requires Flatten(Frames(s[1..])) + Rest(s[1..]) == s[1..]
    ensures Split(s + c) == Frames(s) + Split(Rest(s) + c)
  {
    var p := Split(s[1..]);
    var q := Split(s[1..] + c);
    assert (s + c)[1..] == s[1..] + c;
    assert Split(s + c) == [[s[0]] + q[0]] + q[1..];
    assert Split(s) == [[s[0]] + p[0]] + p[1..];
    if |p| == 1 {
      AppendAtCharLast(s, c);
    } else {
      AppendAtCharMore(s, c);
    }
  }

  lemma {:induction false} AppendAtCharLast(s: string, c: string)
    requires |s| >= 2 && !DelimAt(s, 0) && |Split(s[1..])| == 1
    requires Flatten(Frames(s[1..])) + Rest(s[1..]) == s[1..]
    requires Split(s) == [[s[0]] + Split(s[1..])[0]] + Split(s[1..])[1..]
    ensures Split(s + c) == Frames(s) + Split(Rest(s) + c)
  {
    var p := Split(s[1..]);
    assert Frames(s[1..]) == [] && p[0] == s[1..];
    assert p[1..] == [] && [s[0]] + s[1..] == s;
    assert Split(s) == [s];
    assert Frames(s) == [] && Rest(s) == s;
  }

  lemma {:induction false} AppendAtCharMore(s: string, c: string)
    requires |s| >= 2 && |Split(s[1..])| > 1
    requires Split(s[1..] + c) == Frames(s[1..]) + Split(Rest(s[1..]) + c)
    requires Split(s + c) == [[s[0]] + Split(s[1..] + c)[0]] + Split(s[1..] + c)[1..]
    requires Split(s) == [[s[0]] + Split(s[1..])[0]] + Split(s[1..])[1..]
    ensures Split(s + c) == Frames(s) + Split(Rest(s) + c)
  {
    var p := Split(s[1..]);
    var q := Split(s[1..] + c);
    var tail := Split(Rest(s[1..]) + c);
    assert q == p[..|p| - 1] + tail;
    PrependToFirst(s[0], p, q, tail);
    assert Rest(s) == p[|p| - 1] == Rest(s[1..]);
  }

  /** The list algebra behind `AppendAtCharMore`: a character glued to the first piece of both splits. */
  lemma {:induction false} PrependToFirst(x: char, p: seq<string>, q: seq<string>, tail: seq<string>)
    requires |p| > 1 && q == p[..|p| - 1] + tail
    ensures [[x] + q[0]] + q[1..] == ([[x] + p[0]] + p[1..])[..|p| - 1] + tail
  {
    assert q[0] == p[0];
    assert q[1..] == p[1..|p| - 1] + tail;
    assert ([[x] + p[0]] + p[1..])[..|p| - 1] == [[x] + p[0]] + p[1..|p| - 1];
  }

  /** One read: `buffer += chunk; parts = buffer.split("\n\n"); buffer = parts.pop()`. */
  function Step(buffer: string, chunk: string): (r: (seq<string>, string))
    ensures buffer + chunk == Flatten(r.0) + r.1
    ensures !HasDelim(r.1)
    ensures forall i :: 0 <= i < |r.0| ==> FrameOk(r.0[i])
  {
    SplitReassembles(buffer + chunk);
    SplitWellFormed(buffer + chunk);
    (Frames(buffer + chunk), Rest(buffer + chunk))
  }

  /**
   * The frames handed out, in order, and the buffer left, after reading
   * `chunks` one by one; nothing read is lost or invented.
   */
  function Feed(chunks: seq<string>): (r: (seq<string>, string))
    ensures Flatten(r.0) + r.1 == Concat(chunks)
  {
    if chunks == [] then ([], "")
    else
      var init, last := chunks[..|chunks| - 1], chunks[|chunks| - 1];
      var prev := Feed(init);
      var next := Step(prev.1, last);
      FlattenAppend(prev.0, next.0);
      AppendAssoc(Flatten(prev.0), prev.1, last);
      AppendAssoc(Flatten(prev.0), Flatten(next.0), next.1);
      (prev.0 + next.0, next.1)
  }

  lemma {:induction false} FlattenAppend(xs: seq<string>, ys: seq<string>)
    ensures Flatten(xs + ys) == Flatten(xs) + Flatten(ys)
    decreases |xs|
  {
    if xs == [] {
      assert xs + ys == ys;
    } else {
      assert xs + ys == [xs[0]] + (xs[1..] + ys);
      FlattenCons(xs[0], xs[1..] + ys);
      FlattenAppend(xs[1..], ys);
      AppendAssoc(xs[0] + Delim, Flatten(xs[1..]), Flatten(ys));
    }
  }

  /** Reading in chunks hands out the frames of the whole text and keeps its last piece. */
  lemma {:induction false} FeedIsSplit(chunks: seq<string>)
    ensures Feed(chunks) == (Frames(Concat(chunks)), Rest(Concat(chunks)))
    decreases |chunks|
  {
    if chunks != [] {
      var init, last := chunks[..|chunks| - 1], chunks[|chunks| - 1];
      FeedIsSplit(init);
      var a := Frames(Concat(init));
      var b := Split(Rest(Concat(init)) + last);
      SplitAppend(Concat(init), last);
      assert Concat(chunks) == Concat(init) + last;
      assert Split(Concat(chunks)) == a + b;
      assert (a + b)[..|a + b| - 1] == a + b[..|b| - 1];
    }
  }

  /** The buffer never holds a delimiter at rest. */
  lemma {:induction false} FeedBufferNoDelim(chunks: seq<string>)
    ensures !HasDelim(Feed(chunks).1)
  {
    if chunks != [] {
      var prev := Feed(chunks[..|chunks| - 1]);
      assert Feed(chunks).1 == Step(prev.1, chunks[|chunks| - 1]).1;
    }
  }

  /** How the text was cut into reads does not change the frames handed out or the buffer left. */
  lemma {:induction false} ChunkingIrrelevant(xs: seq<string>, ys: seq<string>)
    requires Concat(xs) == Concat(ys)
    ensures Feed(xs) == Feed(ys)
  {
    FeedIsSplit(xs);
    FeedIsSplit(ys);
  }

  /** The frames handed out by the first `k` reads are a prefix of those handed out by all of them. */
  lemma {:induction false} FeedExtends(chunks: seq<string>, k: nat)
    requires k <= |chunks|
    ensures Feed(chunks[..k]).0 <= Feed(chunks).0
    decreases |chunks| - k
  {
    if k < |chunks| {
      var init := chunks[..|chunks| - 1];
      assert init[..k] == chunks[..k];
      FeedExtends(init, k);
    } else {
      assert chunks[..k] == chunks;
    }
  }

  // ----- what is forwarded for a sequence of frames -----

  /** What the relay does with one complete frame. */
  datatype Action = Skip | Stop | Forward(delta: string)

  /**
   * The payload of a data frame: the trimmed frame without `data:` and
   * the whitespace after it (the `^data:\s*` replacement), or `None`
   * when the trimmed frame does not start with `data:`.
   */
  function DataOf(frame: string): (r: Option<string>)
    ensures r.Some? <==> StartsWith(Trim(frame), "data:")
    ensures r.Some? ==> var line := Trim(frame);
      |r.value| <= |line| - 5 && r.value == line[|line| - |r.value|..] &&
      AllSpace(line[5..|line| - |r.value|]) && (r.value == [] || !IsSpace(r.value[0]))
  {
    var line := Trim(frame);
    if StartsWith(line, "data:") then
      TrimStartSpec(line[5..]);
      assert line[5..][..|line[5..]| - |TrimStart(line[5..])|] == line[5..|line| - |TrimStart(line[5..])|];
      Some(TrimStart(line[5..]))
    else None
  }

  /**
   * The payloads `JSON.parse` accepts, each with the delta read from it
   * (`json.choices?.[0]?.delta?.content ?? ''`).  A payload outside the
   * table is one whose parsing or reading throws.
   */
  type Parsed = map<string, string>

  /**
   * The relay's decision for one complete frame: frames that are not
   * data lines and payloads that do not parse are skipped, the sentinel
   * stops the stream, and anything else forwards its delta (which is
   * written only when it is non-empty).
   */
  function Classify(frame: string, parsed: Parsed): (r: Action)
    ensures r == Stop <==> DataOf(frame) == Some(Sentinel)
    ensures r.Forward? <==> DataOf(frame).Some? && DataOf(frame).value != Sentinel && DataOf(frame).value in parsed
    ensures r.Forward? ==> r.delta == parsed[DataOf(frame).value]
  {
    match DataOf(frame)
    case None => Skip
    case Some(data) =>
      if data == Sentinel then Stop
      else if data in parsed then Forward(parsed[data])
      else Skip
  }

  /** The decision for each frame, in order. */
  function Actions(fs: seq<string>, parsed: Parsed): (r: seq<Action>)
    ensures |r| == |fs|
  {
    seq(|fs|, i requires 0 <= i < |fs| => Classify(fs[i], parsed))
  }

  lemma {:induction false} ActionsAppend(xs: seq<string>, ys: seq<string>, parsed: Parsed)
    ensures Actions(xs + ys, parsed) == Actions(xs, parsed) + Actions(ys, parsed)
  {
    var l, r := Actions(xs + ys, parsed), Actions(xs, parsed) + Actions(ys, parsed);
    forall i | 0 <= i < |l| ensures l[i] == r[i] {
      if i < |xs| { assert (xs + ys)[i] == xs[i]; } else { assert (xs + ys)[i] == ys[i - |xs|]; }
    }
  }

  /** The decisions before the first stop. */
  function BeforeStop(acts: seq<Action>): (r: seq<Action>)
    ensures r <= acts && Stop !in r
    ensures |r| < |acts| ==> acts[|r|] == Stop
  {
    if acts == [] || acts[0] == Stop then []
    else
      var tail := BeforeStop(acts[1..]);
      assert ([acts[0]] + tail)[1..] == tail;
      [acts[0]] + tail
  }

  /** What one decision writes: its delta when it forwards a non-empty one (`if (delta) res.write(delta)`), else nothing. */
  function Written(a: Action): string {
    if a.Forward? then a.delta else ""
  }

  /** What the decisions `acts` write, in order, ignoring stops. */
  function Emitted(acts: seq<Action>): string
  {
    if acts == [] then "" else Emitted(acts[..|acts| - 1]) + Written(acts[|acts| - 1])
  }

  /** What the decisions `acts` write: the deltas before the first stop, concatenated. */
  function Output(acts: seq<Action>): string {
    Emitted(BeforeStop(acts))
  }

  /** The response body for the complete frames `fs`. */
  function Body(fs: seq<string>, parsed: Parsed): string {
    Output(Actions(fs, parsed))
  }

  lemma {:induction false} EmittedAppend(xs: seq<Action>, ys: seq<Action>)
    ensures Emitted(xs + ys) == Emitted(xs) + Emitted(ys)
    decreases |ys|
  {
    if ys == [] {
      assert xs + ys == xs;
    } else {
      var init, last := ys[..|ys| - 1], ys[|ys| - 1];
      assert ys == init + [last];
      SnocAssoc(xs, init, last);
      EmittedAppend(xs, init);
      AppendAssoc(Emitted(xs), Emitted(init), Written(last));
    }
  }

  lemma {:induction false} SnocAssoc<T>(xs: seq<T>, init: seq<T>, last: T)
    ensures xs + (init + [last]) == (xs + init) + [last]
    ensures ((xs + init) + [last])[..|xs + init|] == xs + init
  {
  }

  lemma {:induction false} BeforeStopAppend(xs: seq<Action>, ys: seq<Action>)
    ensures Stop !in xs ==> BeforeStop(xs + ys) == xs + BeforeStop(ys)
    ensures Stop in xs ==> BeforeStop(xs + ys) == BeforeStop(xs)
    decreases |xs|
  {
    if xs == [] {
      assert xs + ys == ys;
    } else {
      var w := xs + ys;
      assert w[0] == xs[0] && w[1..] == xs[1..] + ys;
      assert xs == [xs[0]] + xs[1..];
      BeforeStopAppend(xs[1..], ys);
    }
  }

  /** Before any stop, the body grows by exactly the deltas of each new decision. */
  lemma {:induction false} OutputAppend(xs: seq<Action>, ys: seq<Action>)
    requires Stop !in xs
    ensures Output(xs + ys) == Emitted(xs) + Output(ys)
  {
    BeforeStopAppend(xs, ys);
    EmittedAppend(xs, BeforeStop(ys));
  }

  /** Decisions with no stop among them write exactly their deltas. */
  lemma {:induction false} OutputWithoutStop(xs: seq<Action>)
    requires Stop !in xs
    ensures Output(xs) == Emitted(xs)
  {
    BeforeStopAppend(xs, []);
    assert xs + [] == xs;
  }

  /** A stop ends the output: nothing after it, in the same read or a later one, is written. */
  lemma {:induction false} OutputStopsAt(xs: seq<Action>, ys: seq<Action>)
    ensures Output(xs + [Stop] + ys) == Output(xs)
  {
    var w := xs + [Stop];
    assert w[|xs|] == Stop;
    BeforeStopAppend(w, ys);
    BeforeStopAppend(xs, [Stop]);
    BeforeStopAppend(xs, []);
    assert xs + [] == xs;
  }

  /**
   * A frame that is skipped, or that forwards an empty delta, adds
   * nothing to the output and does not stop the stream.
   */
  lemma {:induction false} SkippedIsInvisible(xs: seq<Action>, a: Action, ys: seq<Action>)
    requires a.Skip? || a == Forward("")
    ensures Output(xs + [a] + ys) == Output(xs + ys)
  {
    assert xs + [a] + ys == xs + ([a] + ys);
    BeforeStopAppend(xs, [a] + ys);
    BeforeStopAppend(xs, ys);
    if Stop !in xs {
      BeforeStopPastSkip(a, ys);
      InvisibleBeforeRest(xs, a, BeforeStop(ys));
    }
  }

  lemma {:induction false} BeforeStopPastSkip(a: Action, ys: seq<Action>)
    requires a != Stop
    ensures BeforeStop([a] + ys) == [a] + BeforeStop(ys)
  {
    assert ([a] + ys)[1..] == ys;
  }

  lemma {:induction false} InvisibleBeforeRest(xs: seq<Action>, a: Action, b: seq<Action>)
    requires Written(a) == ""
    ensures Emitted(xs + ([a] + b)) == Emitted(xs + b)
  {
    EmittedAppend(xs, [a] + b);
    EmittedAppend(xs, b);
    EmittedAppend([a], b);
    assert Emitted([a]) == "" by { assert [a][..0] == []; }
    assert Emitted([a] + b) == Emitted(b) by { EmptyPrefix(Emitted(b)); }
  }


  /** Frames that are not data lines never reach the body. */
  lemma {:induction false} NonDataFrameIsInvisible(xs: seq<string>, f: string, ys: seq<string>, parsed: Parsed)
    requires !StartsWith(Trim(f), "data:")
    ensures Body(xs + [f] + ys, parsed) == Body(xs + ys, parsed)
  {
    ActionsAppend(xs + [f], ys, parsed);
    ActionsAppend(xs, [f], parsed);
    ActionsAppend(xs, ys, parsed);
    assert Actions([f], parsed) == [Skip];
    SkippedIsInvisible(Actions(xs, parsed), Skip, Actions(ys, parsed));
  }

  /** The sentinel frame ends the body: no frame after it is forwarded. */
  lemma {:induction false} SentinelEndsBody(xs: seq<string>, f: string, ys: seq<string>, parsed: Parsed)
    requires DataOf(f) == Some(Sentinel)
    ensures Body(xs + [f] + ys, parsed) == Body(xs, parsed)
  {
    ActionsAppend(xs + [f], ys, parsed);
    ActionsAppend(xs, [f], parsed);
    assert Actions([f], parsed) == [Stop];
    OutputStopsAt(Actions(xs, parsed), Actions(ys, parsed));
  }
}
