/**
 * The serverless chat endpoint: it gates the request on its HTTP method
 * and on the configured API key, projects the conversation onto the
 * upstream completion request, and re-streams the upstream event stream
 * to the browser as plain text.
 */
module Relay {
  import opened Wrappers
  import opened Text
  import opened EventStream

  /** A turn as the browser sends it; the role is whatever string the client put there. */
  datatype ClientMessage = ClientMessage(role: string, text: string)

  /** A turn of the upstream completion request. */
  datatype UpstreamMessage = UpstreamMessage(role: string, content: string)

  /**
   * The upstream's answer: its `ok` flag, whether it has a body, the text
   * `upstream.text()` yields, and the body's reads already decoded to text.
   */
  datatype Upstream = Upstream(ok: bool, hasBody: bool, errorText: string, chunks: seq<string>)

  /** How many of the latest turns are forwarded. */
  const HistoryLimit: nat := 12

  /** `assistant` stays `assistant`; every other role becomes `user`. */
  function UpstreamRole(role: string): (r: string)
    ensures r == "assistant" <==> role == "assistant"
    ensures r == "assistant" || r == "user"
  {
    if role == "assistant" then "assistant" else "user"
  }

  lemma {:induction false} RoleIsUserOrAssistant(role: string)
    ensures UpstreamRole(role) == "user" || UpstreamRole(role) == "assistant"
  {
  }

  /** `messages.map(m => ({ role: ..., content: m.text }))`. */
  function ToUpstream(ms: seq<ClientMessage>): (r: seq<UpstreamMessage>)
    ensures |r| == |ms|
    ensures forall i :: 0 <= i < |ms| ==> r[i] == UpstreamMessage(UpstreamRole(ms[i].role), ms[i].text)
  {
    if ms == [] then []
    else [UpstreamMessage(UpstreamRole(ms[0].role), ms[0].text)] + ToUpstream(ms[1..])
  }

  /** `messages.slice(-12)`: the last twelve turns, or all of them when there are fewer. */
  function Recent(ms: seq<ClientMessage>): (r: seq<ClientMessage>)
    ensures |r| == if |ms| < HistoryLimit then |ms| else HistoryLimit
    ensures r == ms[|ms| - |r|..]
  {
    if |ms| <= HistoryLimit then ms else ms[|ms| - HistoryLimit..]
  }

  /**
   * The `messages` of the upstream request: the system directive, then
   * the latest turns in their original order with their roles mapped and
   * their text as content.
   */
  function Project(system: string, ms: seq<ClientMessage>): (r: seq<UpstreamMessage>)
    ensures |r| == 1 + (if |ms| < HistoryLimit then |ms| else HistoryLimit)
    ensures r[0] == UpstreamMessage("system", system)
    ensures forall i :: 1 <= i < |r| ==>
      var m := ms[|ms| - (|r| - 1) + (i - 1)];
      r[i] == UpstreamMessage(UpstreamRole(m.role), m.text)
    ensures forall i :: 1 <= i < |r| ==> r[i].role == "user" || r[i].role == "assistant"
  {
    var head := UpstreamMessage("system", system);
    var rec := Recent(ms);
    var tail := ToUpstream(rec);
    ProjectTurns(head, ms, rec, tail);
    [head] + tail
  }

  /** Behind the system message come the projected recent turns, position by position. */
  lemma {:induction false} ProjectTurns(head: UpstreamMessage, ms: seq<ClientMessage>, rec: seq<ClientMessage>, tail: seq<UpstreamMessage>)
    requires |rec| <= |ms| && rec == ms[|ms| - |rec|..]
    requires |tail| == |rec|
    requires forall j :: 0 <= j < |rec| ==> tail[j] == UpstreamMessage(UpstreamRole(rec[j].role), rec[j].text)
    ensures var r := [head] + tail;
      forall i :: 1 <= i < |r| ==>
        var m := ms[|ms| - (|r| - 1) + (i - 1)];
        r[i] == UpstreamMessage(UpstreamRole(m.role), m.text) && (r[i].role == "user" || r[i].role == "assistant")
  {
    var r := [head] + tail;
    forall i | 1 <= i < |r|
      ensures var m := ms[|ms| - (|r| - 1) + (i - 1)];
        r[i] == UpstreamMessage(UpstreamRole(m.role), m.text) && (r[i].role == "user" || r[i].role == "assistant")
    {
      var j := i - 1;
      var m := rec[j];
      assert r[i] == tail[j];
      assert m == ms[|ms| - |rec| + j];
      RoleIsUserOrAssistant(m.role);
    }
  }

  /** The content type the hosting platform's `res.json` sets when none is set yet. */
  const JsonContentType: string := "application/json; charset=utf-8"

  /** The body `res.json({ error })` sends. */
  function ErrorJson(error: string): string {
    "{\"error\":\"" + error + "\"}"
  }

  /** `!apiKey`: the key is unset or empty. */
  predicate KeyMissing(apiKey: Option<string>) {
    apiKey == None || apiKey == Some("")
  }

  /** The CORS headers set on every response. */
  function CorsHeaders(): map<string, string> {
    map["Access-Control-Allow-Origin" := "*",
        "Access-Control-Allow-Methods" := "POST, OPTIONS",
        "Access-Control-Allow-Headers" := "Content-Type"]
  }

  /** The headers of a response that streams. */
  function StreamHeaders(): map<string, string> {
    CorsHeaders()["Content-Type" := "text/event-stream; charset=utf-8"]
                 ["Cache-Control" := "no-cache, no-transform"]
                 ["Connection" := "keep-alive"]
  }

  /** The browser-facing response: status, headers, the body written so far, and whether it has been ended. */
  class Response {
    var status: int
    var headers: map<string, string>
    var body: string
    var ended: bool

    constructor ()
      ensures status == 200 && headers == map[] && body == "" && !ended
    {
      status, headers, body, ended := 200, map[], "", false;
    }

    method SetHeader(name: string, value: string)
      requires !ended
      modifies this
      ensures headers == old(headers)[name := value]
      ensures status == old(status) && body == old(body) && !ended
    {
      headers := headers[name := value];
    }

    method SetStatus(code: int)
      requires !ended
      modifies this
      ensures status == code
      ensures headers == old(headers) && body == old(body) && !ended
    {
      status := code;
    }

    /** `res.write(chunk)`: only an open response can be written to. */
    method Write(chunk: string)
      requires !ended
      modifies this
      ensures body == old(body) + chunk
      ensures status == old(status) && headers == old(headers) && !ended
    {
      body := body + chunk;
    }

    /** `res.end(chunk)`: a response is ended once. */
    method End(chunk: string)
      requires !ended
      modifies this
      ensures body == old(body) + chunk && ended
      ensures status == old(status) && headers == old(headers)
    {
      body := body + chunk;
      ended := true;
    }

    /** `res.json(value)`: the JSON content type, unless one is set, then the encoded text ends the response. */
    method Json(text: string)
      requires !ended
      modifies this
      ensures headers == if "Content-Type" in old(headers) then old(headers) else old(headers)["Content-Type" := JsonContentType]
      ensures body == old(body) + text && ended && status == old(status)
    {
      if "Content-Type" !in headers {
        SetHeader("Content-Type", JsonContentType);
      }
      End(text);
    }
  }

  /**
   * The body of the inner loop for one complete frame: a stop is
   * reported to the caller, which ends the response; a non-empty delta
   * is written; anything else is skipped.
   */
  method ForwardFrame(res: Response, frame: string, parsed: Parsed) returns (stop: bool)
    requires !res.ended
    modifies res
    ensures stop <==> Actions([frame], parsed) == [Stop]
    ensures res.body == old(res.body) + Emitted(Actions([frame], parsed))
    ensures !res.ended && res.status == old(res.status) && res.headers == old(res.headers)
  {
    ghost var acts := Actions([frame], parsed);
    assert acts == [Classify(frame, parsed)];
    assert Emitted(acts) == Written(acts[0]) by { assert acts[..0] == []; }
    var line := Trim(frame);
    if !StartsWith(line, "data:") {
      return false;
    }
    var data := TrimStart(line[5..]);
    if data == Sentinel {
      return true;
    }
    if data in parsed {
      var delta := parsed[data];
      if |delta| > 0 {
        res.Write(delta);
      }
    }
    return false;
  }

  /** One more frame before any stop. */
  lemma {:induction false} PassFrame(start: string, frames: seq<string>, j: nat, parsed: Parsed)
    requires j < |frames| && Stop !in Actions(frames[..j], parsed) && Actions([frames[j]], parsed) != [Stop]
    ensures Stop !in Actions(frames[..j + 1], parsed)
    ensures start + Emitted(Actions(frames[..j + 1], parsed)) ==
      start + Emitted(Actions(frames[..j], parsed)) + Emitted(Actions([frames[j]], parsed))
  {
    var xs, x := Actions(frames[..j], parsed), Actions([frames[j]], parsed);
    assert frames[..j + 1] == frames[..j] + [frames[j]];
    ActionsAppend(frames[..j], [frames[j]], parsed);
    assert |x| == 1 && x[0] != Stop by { assert x == [x[0]]; }
    EmittedAppend(xs, x);
    AppendAssoc(start, Emitted(xs), Emitted(x));
  }

  /** The first stop among the frames is frame `j`. */
  lemma {:induction false} StopAtFrame(start: string, frames: seq<string>, j: nat, parsed: Parsed)
    requires j < |frames| && Stop !in Actions(frames[..j], parsed) && Actions([frames[j]], parsed) == [Stop]
    ensures Stop in Actions(frames, parsed)
    ensures start + Emitted(Actions(frames[..j], parsed)) + "" == start + Body(frames, parsed)
  {
    var rest := frames[j + 1..];
    assert frames == frames[..j] + [frames[j]] + rest;
    ActionsAppend(frames[..j] + [frames[j]], rest, parsed);
    ActionsAppend(frames[..j], [frames[j]], parsed);
    var acts := Actions(frames, parsed);
    assert acts == Actions(frames[..j], parsed) + [Stop] + Actions(rest, parsed);
    assert acts[j] == Stop;
    OutputStopsAt(Actions(frames[..j], parsed), Actions(rest, parsed));
    OutputWithoutStop(Actions(frames[..j], parsed));
    var e := start + Emitted(Actions(frames[..j], parsed));
    assert e + "" == e;
  }

  /** The loop over a read's frames ran to its end without a stop. */
  lemma {:induction false} AllFramesPassed(start: string, frames: seq<string>, j: nat, parsed: Parsed)
    requires j == |frames| && Stop !in Actions(frames[..j], parsed)
    ensures Stop !in Actions(frames, parsed)
    ensures start + Emitted(Actions(frames[..j], parsed)) == start + Body(frames, parsed)
  {
    assert frames[..j] == frames;
    OutputWithoutStop(Actions(frames, parsed));
  }

  /**
   * The inner loop over the complete frames of one read, in order.  At a
   * stop the response is ended and the loop reports it; otherwise every
   * frame's delta has been written.
   */
  method ForwardFrames(res: Response, frames: seq<string>, parsed: Parsed) returns (stopped: bool)
    requires !res.ended
    modifies res
    ensures stopped <==> Stop in Actions(frames, parsed)
    ensures res.body == old(res.body) + Body(frames, parsed)
    ensures res.ended == stopped && res.status == old(res.status) && res.headers == old(res.headers)
  {
    ghost var start := res.body;
    var j := 0;
    while j < |frames|
      invariant 0 <= j <= |frames|
      invariant Stop !in Actions(frames[..j], parsed)
      invariant res.body == start + Emitted(Actions(frames[..j], parsed))
      invariant !res.ended && res.status == old(res.status) && res.headers == old(res.headers)
    {
      var stop := ForwardFrame(res, frames[j], parsed);
      if stop {
        StopAtFrame(start, frames, j, parsed);
        res.End("");
        return true;
      }
      PassFrame(start, frames, j, parsed);
      j := j + 1;
    }
    AllFramesPassed(start, frames, j, parsed);
    return false;
  }

  /** One more read extends what the reads so far handed out by the complete frames of the grown buffer. */
  lemma {:induction false} FeedOneMore(chunks: seq<string>, i: nat, handed: seq<string>, buffer: string, parts: seq<string>)
    requires i < |chunks| && Feed(chunks[..i]) == (handed, buffer)
    requires parts == Split(buffer + chunks[i])
    ensures Feed(chunks[..i + 1]) == (handed + parts[..|parts| - 1], parts[|parts| - 1])
  {
    assert chunks[..i + 1][..i] == chunks[..i];
  }

  /** The frames handed out after `i + 1` reads are followed by the rest of the whole text's frames. */
  lemma {:induction false} FramesAfter(chunks: seq<string>, i: nat, handed: seq<string>) returns (ys: seq<string>)
    requires i < |chunks| && Feed(chunks[..i + 1]).0 == handed
    ensures Frames(Concat(chunks)) == handed + ys
  {
    FeedExtends(chunks, i + 1);
    FeedIsSplit(chunks);
    var all := Frames(Concat(chunks));
    ys := all[|handed|..];
    assert all == handed + ys;
  }

  /** Once a stop has been seen in `complete`, the frames that follow it do not matter. */
  lemma {:induction false} BodyStopsIn(handed: seq<string>, complete: seq<string>, ys: seq<string>, parsed: Parsed)
    requires Stop !in Actions(handed, parsed) && Stop in Actions(complete, parsed)
    ensures Body(handed + complete + ys, parsed) == Emitted(Actions(handed, parsed)) + Body(complete, parsed)
  {
    AppendAssoc(handed, complete, ys);
    ActionsAppend(handed, complete + ys, parsed);
    ActionsAppend(complete, ys, parsed);
    OutputAppend(Actions(handed, parsed), Actions(complete + ys, parsed));
    BeforeStopAppend(Actions(complete, parsed), Actions(ys, parsed));
  }

  /** The first read that contains a stop decides the whole body. */
  lemma {:induction false} StopInRead(start: string, chunks: seq<string>, i: nat, handed: seq<string>,
                                      complete: seq<string>, parsed: Parsed)
    requires i < |chunks|
    requires Feed(chunks[..i + 1]).0 == handed + complete
    requires Stop !in Actions(handed, parsed) && Stop in Actions(complete, parsed)
    ensures start + Body(Frames(Concat(chunks)), parsed) ==
      start + Emitted(Actions(handed, parsed)) + Body(complete, parsed)
  {
    var ys := FramesAfter(chunks, i, handed + complete);
    BodyStopsIn(handed, complete, ys, parsed);
    AppendAssoc(start, Emitted(Actions(handed, parsed)), Body(complete, parsed));
  }

  /** A read without a stop: its frames' deltas follow those handed out before. */
  lemma {:induction false} NoStopRead(start: string, handed: seq<string>, complete: seq<string>, parsed: Parsed)
    requires Stop !in Actions(handed, parsed) && Stop !in Actions(complete, parsed)
    ensures Stop !in Actions(handed + complete, parsed)
    ensures start + Emitted(Actions(handed + complete, parsed)) ==
      start + Emitted(Actions(handed, parsed)) + Body(complete, parsed)
  {
    var xs, ys := Actions(handed, parsed), Actions(complete, parsed);
    ActionsAppend(handed, complete, parsed);
    OutputWithoutStop(ys);
    EmittedAppend(xs, ys);
  }

  /** The reads ran out without a stop: every frame handed out was forwarded. */
  lemma {:induction false} ReadsExhausted(chunks: seq<string>, i: nat, handed: seq<string>, parsed: Parsed)
    requires i == |chunks| && Feed(chunks[..i]).0 == handed && Stop !in Actions(handed, parsed)
    ensures Body(Frames(Concat(chunks)), parsed) == Emitted(Actions(handed, parsed))
  {
    assert chunks[..i] == chunks;
    FeedIsSplit(chunks);
    OutputWithoutStop(Actions(handed, parsed));
  }

  /**
   * The read loop over the decoded upstream body: each read is appended
   * to the buffer, the complete frames are handed on in order, and the
   * last piece stays in the buffer.  The response is ended at the first
   * stop or when the reads run out.
   */
  method RelayStream(res: Response, chunks: seq<string>, parsed: Parsed)
    requires !res.ended
    modifies res
    ensures res.ended && res.status == old(res.status) && res.headers == old(res.headers)
    ensures res.body == old(res.body) + Body(Frames(Concat(chunks)), parsed)
  {
    ghost var handed: seq<string> := [];
    ghost var start := res.body;
    var buffer := "";
    var i := 0;
    while i < |chunks|
      invariant 0 <= i <= |chunks|
      invariant Feed(chunks[..i]) == (handed, buffer)
      invariant Stop !in Actions(handed, parsed)
      invariant res.body == start + Emitted(Actions(handed, parsed))
      invariant !res.ended && res.status == old(res.status) && res.headers == old(res.headers)
    {
      var parts := Split(buffer + chunks[i]);
      FeedOneMore(chunks, i, handed, buffer, parts);
      buffer := parts[|parts| - 1];
      var complete := parts[..|parts| - 1];
      var stopped := ForwardFrames(res, complete, parsed);
      if stopped {
        StopInRead(start, chunks, i, handed, complete, parsed);
        return;
      }
      NoStopRead(start, handed, complete, parsed);
      handed := handed + complete;
      i := i + 1;
    }
    ReadsExhausted(chunks, i, handed, parsed);
    res.End("");
  }

  /**
   * The whole endpoint.  `system` is the directive built from `lang` and
   * `profile`; `parsed` maps each payload that parses to the delta read
   * from it.  The result is the message list sent upstream, if any.
   */
  method Handle(res: Response, httpMethod: string, apiKey: Option<string>, messages: seq<ClientMessage>,
                system: string, upstream: Upstream, parsed: Parsed)
    returns (sent: Option<seq<UpstreamMessage>>)
    requires res.status == 200 && res.headers == map[] && res.body == "" && !res.ended
    modifies res
    ensures res.ended
    ensures httpMethod == "OPTIONS" ==>
      sent == None && res.status == 200 && res.body == "" && res.headers == CorsHeaders()
    ensures httpMethod != "OPTIONS" && httpMethod != "POST" ==>
      sent == None && res.status == 405 && res.body == ErrorJson("Method not allowed") &&
      res.headers == CorsHeaders()["Content-Type" := JsonContentType]
    ensures httpMethod == "POST" && KeyMissing(apiKey) ==>
      sent == None && res.status == 500 && res.body == ErrorJson("Missing OPENAI_API_KEY") &&
      res.headers == CorsHeaders()["Content-Type" := JsonContentType]
    ensures httpMethod == "POST" && !KeyMissing(apiKey) ==>
      sent == Some(Project(system, messages)) && res.headers == StreamHeaders()
    ensures httpMethod == "POST" && !KeyMissing(apiKey) && !(upstream.ok && upstream.hasBody) ==>
      res.status == 500 && res.body == upstream.errorText
    ensures httpMethod == "POST" && !KeyMissing(apiKey) && upstream.ok && upstream.hasBody ==>
      res.status == 200 && res.body == Body(Frames(Concat(upstream.chunks)), parsed)
  {
    res.SetHeader("Access-Control-Allow-Origin", "*");
    res.SetHeader("Access-Control-Allow-Methods", "POST, OPTIONS");
    res.SetHeader("Access-Control-Allow-Headers", "Content-Type");

    if httpMethod == "OPTIONS" {
      res.SetStatus(200);
      res.End("");
      return None;
    }
    if httpMethod != "POST" {
      res.SetStatus(405);
      res.Json(ErrorJson("Method not allowed"));
      return None;
    }
    if KeyMissing(apiKey) {
      res.SetStatus(500);
      res.Json(ErrorJson("Missing OPENAI_API_KEY"));
      return None;
    }

    res.SetHeader("Content-Type", "text/event-stream; charset=utf-8");
    res.SetHeader("Cache-Control", "no-cache, no-transform");
    res.SetHeader("Connection", "keep-alive");
    sent := Some(Project(system, messages));

    if !upstream.ok || !upstream.hasBody {
      res.SetStatus(500);
      res.End(upstream.errorText);
      return;
    }
    RelayStream(res, upstream.chunks, parsed);
  }
}
