/**
 The SDK: it keeps the ruleset it last fetched, evaluates against it locally, and fetches
 again whenever the change stream says so.
 */
module Sdk {
  import opened Wrappers
  import opened Engine
  import opened Payload

  // ---- Refreshing ----------------------------------------------------------------------------------

  /** What GET /ruleset comes back with; no body when it is not the expected JSON. */
  datatype Response = NoResponse | Response(status: int, body: Option<seq<Entry>>)

  /** {item["key"]: _spec_from_json(item)}: the last of two items with one key wins. */
  function DecodeAll(entries: seq<Entry>): Result<map<string, FlagSpec>, DecodeError> {
    if entries == [] then Success(map[])
    else
      var last := entries[|entries| - 1];
      match DecodeAll(entries[..|entries| - 1])
      case Failure(e) => Failure(e)
      case Success(m) =>
        (match SpecFromJson(last)
         case Failure(e) => Failure(e)
         case Success(spec) => Success(m[last.key := spec]))
  }

  /** The flags after a refresh: the new ruleset, or on any problem the old one. */
  function Refreshed(flags: map<string, FlagSpec>, response: Response): map<string, FlagSpec> {
    if response.Response? && 200 <= response.status < 300 && response.body.Some?
       && DecodeAll(response.body.value).Success?
    then DecodeAll(response.body.value).value
    else flags
  }

  // ---- The change stream ---------------------------------------------------------------------------

  predicate StartsWith(line: string, prefix: string) { prefix <= line }

  /** What str.strip removes. */
  predicate IsSpace(c: char) {
    var n := c as int;
    9 <= n <= 13 || 28 <= n <= 32 || n == 133 || n == 160 || n == 5760 || 8192 <= n <= 8202
    || n == 8232 || n == 8233 || n == 8239 || n == 8287 || n == 12288
  }

  function StripLeft(s: string): string {
    if s != [] && IsSpace(s[0]) then StripLeft(s[1..]) else s
  }

  function StripRight(s: string): string {
    if s != [] && IsSpace(s[|s| - 1]) then StripRight(s[..|s| - 1]) else s
  }

  function Strip(s: string): string { StripRight(StripLeft(s)) }

  const FLAG_CHANGE := "flag-change"

  /** The event name the client remembers after a line. */
  function NextEvent(event: Option<string>, line: string): Option<string> {
    if StartsWith(line, "event:") then Some(Strip(line[6..]))
    else if StartsWith(line, "data:") && event == Some(FLAG_CHANGE) then event
    else if line == "" then None
    else event
  }

  predicate Refreshes(event: Option<string>, line: string) {
    !StartsWith(line, "event:") && StartsWith(line, "data:") && event == Some(FLAG_CHANGE)
  }

  /** How often the client refreshes over a connection's lines. */
  function RefreshCount(event: Option<string>, lines: seq<string>): nat
    decreases |lines|
  {
    if lines == [] then 0
    else (if Refreshes(event, lines[0]) then 1 else 0) + RefreshCount(NextEvent(event, lines[0]), lines[1..])
  }

  class RipcordClient {
    var flags: map<string, FlagSpec>
    var refreshes: nat

    constructor ()
      ensures flags == map[] && refreshes == 0
    {
      flags, refreshes := map[], 0;
    }

    /** Re-fetches the ruleset; on failure the last known good copy stays. */
    method Refresh(response: Response)
      modifies this
      ensures flags == Refreshed(old(flags), response)
      ensures refreshes == old(refreshes) + 1
    {
      refreshes := refreshes + 1;
      if response.NoResponse? {
        return;
      }
      if response.status == 401 || response.status == 403 {
        return;
      }
      if !(200 <= response.status < 300) || response.body.None? {
        return;
      }
      var entries := response.body.value;
      var decoded: map<string, FlagSpec> := map[];
      for i := 0 to |entries|
        invariant DecodeAll(entries[..i]) == Success(decoded)
        invariant flags == old(flags) && refreshes == old(refreshes) + 1
      {
        assert entries[..i + 1][..i] == entries[..i];
        match SpecFromJson(entries[i]) {
          case Failure(e) =>
            FailureStays(entries, i + 1);
            return;
          case Success(spec) =>
            decoded := decoded[entries[i].key := spec];
        }
      }
      assert entries[..|entries|] == entries;
      flags := decoded;
    }

    /** Reads one connection's lines; `responses` is what each refresh gets back. */
    method Watch(lines: seq<string>, responses: seq<Response>)
      requires |responses| >= RefreshCount(None, lines)
      modifies this
      ensures refreshes == old(refreshes) + RefreshCount(None, lines)
      ensures flags == RefreshedAll(old(flags), responses[..RefreshCount(None, lines)])
    {
      var event: Option<string> := None;
      ghost var start := refreshes;
      var count := 0;
      for i := 0 to |lines|
        invariant count + RefreshCount(event, lines[i..]) == RefreshCount(None, lines)
        invariant refreshes == start + count
        invariant flags == RefreshedAll(old(flags), responses[..count])
      {
        assert lines[i..][1..] == lines[i + 1..];
        if StartsWith(lines[i], "event:") {
          event := Some(Strip(lines[i][6..]));
        } else if StartsWith(lines[i], "data:") && event == Some(FLAG_CHANGE) {
          assert responses[..count + 1][..count] == responses[..count];
          Refresh(responses[count]);
          count := count + 1;
        } else if lines[i] == "" {
          event := None;
        }
      }
    }

    function IsEnabled(md5: Digest, key: string, userId: string, context: Context, default: bool): bool
      reads this
    {
      var result := Locally(md5, flags, key, userId, context);
      if result.Some? then result.value.enabled else default
    }

    function Variant(md5: Digest, key: string, userId: string, context: Context,
                     default: Option<string>): Option<string>
      reads this
    {
      var result := Locally(md5, flags, key, userId, context);
      if result.Some? && result.value.variant.Some? then result.value.variant else default
    }

    function ValueOf(md5: Digest, key: string, userId: string, context: Context, default: Value): Value
      reads this
    {
      var result := Locally(md5, flags, key, userId, context);
      if result.Some? && result.value.variant.Some? then result.value.value else default
    }
  }

  /** The local evaluation behind is_enabled, variant and value. */
  function Locally(md5: Digest, flags: map<string, FlagSpec>, key: string, userId: string, context: Context)
    : Option<Evaluation>
  {
    if key in flags then Some(Evaluate(md5, flags[key], userId, context)) else None
  }

  function RefreshedAll(flags: map<string, FlagSpec>, responses: seq<Response>): map<string, FlagSpec> {
    if responses == [] then flags
    else Refreshed(RefreshedAll(flags, responses[..|responses| - 1]), responses[|responses| - 1])
  }

  lemma {:induction false} FailureStays(entries: seq<Entry>, i: nat)
    requires i <= |entries| && DecodeAll(entries[..i]).Failure?
    ensures DecodeAll(entries).Failure?
    decreases |entries|
  {
    if i < |entries| {
      assert entries[..|entries| - 1][..i] == entries[..i];
      FailureStays(entries[..|entries| - 1], i);
    } else {
      assert entries[..i] == entries;
    }
  }

  // ---- The SDK and the server ------------------------------------------------------------------------

  /** The response body lists exactly the entries of a ruleset, in any order. */
  ghost predicate Lists(body: seq<Entry>, ruleset: map<string, Entry>) {
    && (forall e :: e in body ==> e.key in ruleset && ruleset[e.key] == e)
    && (forall k :: k in ruleset ==> ruleset[k] in body && ruleset[k].key == k)
  }

  lemma {:induction false} DecodeFinds(body: seq<Entry>)
    requires forall e :: e in body ==> e.rules.Present?
    requires forall e, e' :: e in body && e' in body && e.key == e'.key ==> e == e'
    ensures DecodeAll(body).Success?
    ensures forall e :: e in body ==>
              e.key in DecodeAll(body).value && DecodeAll(body).value[e.key] == SpecFromPayload(e)
    ensures forall k :: k in DecodeAll(body).value ==> exists e :: e in body && e.key == k
  {
    if body != [] {
      var init, last := body[..|body| - 1], body[|body| - 1];
      assert body == init + [last];
      DecodeFinds(init);
      DecodersAgree(last);
      forall k | k in DecodeAll(body).value ensures exists e :: e in body && e.key == k {
        if k == last.key {
          assert last in body;
        } else {
          var e :| e in init && e.key == k;
          assert e in body;
        }
      }
    }
  }

  /**
   After a successful refresh the SDK holds, for every flag, exactly the specification the
   server evaluates from the same ruleset, and nothing for any other flag.
   */
  lemma RefreshMirrorsRuleset(flags: map<string, FlagSpec>, status: int, body: seq<Entry>, ruleset: map<string, Entry>,
                              key: string)
    requires 200 <= status < 300 && Lists(body, ruleset)
    requires forall k :: k in ruleset ==> ruleset[k].rules.Present?
    ensures
      Lookup(Refreshed(flags, Response(status, Some(body))), key)
      == if key in ruleset then Some(SpecFromPayload(ruleset[key])) else None
  {
    forall e | e in body ensures e.rules.Present? {
      assert e.key in ruleset;
    }
    DecodeFinds(body);
    if key in DecodeAll(body).value {
      var e :| e in body && e.key == key;
    }
  }

  // ---- The stream format of section 9.2.6 of the WHATWG HTML Standard --------------------------------

  datatype Dispatched = Dispatched(eventType: string, data: string)

  /** The buffers of the standard's parser. */
  datatype Parser = Parser(eventType: string, data: string)

  function FindColon(line: string, i: nat): (r: Option<nat>)
    requires i <= |line|
    ensures r.Some? ==> r.value < |line|
    decreases |line| - i
  {
    if i == |line| then None else if line[i] == ':' then Some(i) else FindColon(line, i + 1)
  }

  function Field(p: Parser, field: string, value: string): Parser {
    if field == "event" then p.(eventType := value)
    else if field == "data" then p.(data := p.data + value + ['\n'])
    else p
  }

  function DropOneSpace(s: string): string {
    if s != [] && s[0] == ' ' then s[1..] else s
  }

  function ParseLine(p: Parser, line: string): (Parser, seq<Dispatched>) {
    if line == "" then
      (Parser("", ""),
       if p.data == "" then []
       else [Dispatched(if p.eventType == "" then "message" else p.eventType, p.data[..|p.data| - 1])])
    else
      match FindColon(line, 0)
      case None => (Field(p, line, ""), [])
      case Some(i) => (if i == 0 then p else Field(p, line[..i], DropOneSpace(line[i + 1..])), [])
  }

  function ParseLines(p: Parser, lines: seq<string>): seq<Dispatched>
    decreases |lines|
  {
    if lines == [] then []
    else
      var (p', out) := ParseLine(p, lines[0]);
      out + ParseLines(p', lines[1..])
  }

  /** What a server writes: a comment, or an event with its data lines. */
  datatype Frame = Comment(text: string) | Event(name: string, data: seq<string>)

  function DataLines(data: seq<string>): seq<string> {
    if data == [] then [] else ["data: " + data[0]] + DataLines(data[1..])
  }

  function FrameLines(f: Frame): seq<string> {
    match f
    case Comment(text) => [":" + text, ""]
    case Event(name, data) => ["event: " + name] + DataLines(data) + [""]
  }

  function StreamLines(frames: seq<Frame>): seq<string> {
    if frames == [] then [] else FrameLines(frames[0]) + StreamLines(frames[1..])
  }

  /** How often the client refreshes for a frame. */
  function ClientCount(f: Frame): nat {
    if f.Event? && Strip(f.name) == FLAG_CHANGE then |f.data| else 0
  }

  /** How many flag-change events the standard dispatches for a frame. */
  function StandardCount(f: Frame): nat {
    if f.Event? && f.name == FLAG_CHANGE && f.data != [] then 1 else 0
  }

  function Total(count: Frame -> nat, frames: seq<Frame>): nat {
    if frames == [] then 0 else count(frames[0]) + Total(count, frames[1..])
  }

  function ChangesIn(events: seq<Dispatched>): nat {
    if events == [] then 0 else (if events[0].eventType == FLAG_CHANGE then 1 else 0) + ChangesIn(events[1..])
  }

  lemma {:induction false} CountAppend(event: Option<string>, a: seq<string>, b: seq<string>)
    requires a != [] && a[|a| - 1] == ""
    ensures RefreshCount(event, a + b) == RefreshCount(event, a) + RefreshCount(None, b)
    decreases |a|
  {
    assert (a + b)[0] == a[0] && (a + b)[1..] == a[1..] + b;
    if |a| == 1 {
      assert a[1..] + b == b;
    } else {
      CountAppend(NextEvent(event, a[0]), a[1..], b);
    }
  }

  lemma {:induction false} CountData(event: Option<string>, data: seq<string>)
    ensures RefreshCount(event, DataLines(data) + [""]) == if event == Some(FLAG_CHANGE) then |data| else 0
  {
    var lines := DataLines(data) + [""];
    if data != [] {
      var line := "data: " + data[0];
      assert line[0] == 'd' && "data:" <= line;
      assert lines[0] == line && lines[1..] == DataLines(data[1..]) + [""];
      CountData(event, data[1..]);
    }
  }

  lemma StripOneSpace(name: string)
    ensures Strip([' '] + name) == Strip(name)
  {
    assert ([' '] + name)[1..] == name;
  }

  lemma CountFrame(f: Frame)
    ensures RefreshCount(None, FrameLines(f)) == ClientCount(f)
  {
    var lines := FrameLines(f);
    match f
    case Comment(text) =>
      var line := ":" + text;
      assert line[0] == ':' && lines == [line, ""];
      assert RefreshCount(None, lines[1..]) == 0;
    case Event(name, data) =>
      var line := "event: " + name;
      assert "event:" <= line && line[6..] == [' '] + name;
      StripOneSpace(name);
      assert lines[0] == line && lines[1..] == DataLines(data) + [""];
      CountData(Some(Strip(name)), data);
  }

  lemma {:induction false} ClientTotal(frames: seq<Frame>)
    ensures RefreshCount(None, StreamLines(frames)) == Total(ClientCount, frames)
  {
    if frames != [] {
      var lines := FrameLines(frames[0]);
      CountAppend(None, lines, StreamLines(frames[1..]));
      CountFrame(frames[0]);
      ClientTotal(frames[1..]);
    }
  }

  lemma {:induction false} ParseAppend(p: Parser, a: seq<string>, b: seq<string>)
    requires a != [] && a[|a| - 1] == ""
    ensures ParseLines(p, a + b) == ParseLines(p, a) + ParseLines(Parser("", ""), b)
    decreases |a|
  {
    assert (a + b)[0] == a[0] && (a + b)[1..] == a[1..] + b;
    var (p', out) := ParseLine(p, a[0]);
    if |a| == 1 {
      assert a[1..] + b == b;
      assert ParseLines(p', a[1..]) == [];
    } else {
      ParseAppend(p', a[1..], b);
    }
  }

  lemma DataLineParses(p: Parser, value: string)
    ensures ParseLine(p, "data: " + value) == (p.(data := p.data + value + ['\n']), [])
  {
    var line := "data: " + value;
    assert line[0] == 'd' && line[1] == 'a' && line[2] == 't' && line[3] == 'a' && line[4] == ':';
    assert FindColon(line, 4) == Some(4);
    assert FindColon(line, 3) == Some(4);
    assert FindColon(line, 2) == Some(4);
    assert FindColon(line, 1) == Some(4);
    assert FindColon(line, 0) == Some(4);
    assert line[..4] == "data" && line[5..] == [' '] + value;
    assert DropOneSpace([' '] + value) == value;
  }

  lemma EventLineParses(p: Parser, name: string)
    ensures ParseLine(p, "event: " + name) == (p.(eventType := name), [])
  {
    var line := "event: " + name;
    assert line[0] == 'e' && line[1] == 'v' && line[2] == 'e' && line[3] == 'n' && line[4] == 't' && line[5] == ':';
    assert FindColon(line, 5) == Some(5);
    assert FindColon(line, 3) == Some(5);
    assert FindColon(line, 1) == Some(5);
    assert line[..5] == "event" && line[6..] == [' '] + name;
    assert DropOneSpace([' '] + name) == name;
  }

  lemma {:induction false} DataParses(p: Parser, data: seq<string>)
    ensures
      var events := ParseLines(p, DataLines(data) + [""]);
      if p.data == "" && data == [] then events == []
      else |events| == 1 && events[0].eventType == if p.eventType == "" then "message" else p.eventType
    decreases |data|
  {
    var lines := DataLines(data) + [""];
    if data == [] {
      assert lines == [""];
      assert ParseLines(ParseLine(p, "").0, lines[1..]) == [];
    } else {
      DataLineParses(p, data[0]);
      assert lines[0] == "data: " + data[0] && lines[1..] == DataLines(data[1..]) + [""];
      DataParses(p.(data := p.data + data[0] + ['\n']), data[1..]);
    }
  }

  lemma FrameParses(f: Frame)
    ensures ChangesIn(ParseLines(Parser("", ""), FrameLines(f))) == StandardCount(f)
  {
    var lines, p := FrameLines(f), Parser("", "");
    match f
    case Comment(text) =>
      assert (":" + text)[0] == ':';
      assert lines[1..] == [""];
      assert ParseLines(p, lines[1..]) == [];
    case Event(name, data) =>
      EventLineParses(p, name);
      assert lines[0] == "event: " + name && lines[1..] == DataLines(data) + [""];
      DataParses(Parser(name, ""), data);
      assert "message" != FLAG_CHANGE;
  }

  lemma {:induction false} ChangesAppend(a: seq<Dispatched>, b: seq<Dispatched>)
    ensures ChangesIn(a + b) == ChangesIn(a) + ChangesIn(b)
  {
    if a == [] {
      assert a + b == b;
    } else {
      assert (a + b)[1..] == a[1..] + b;
      ChangesAppend(a[1..], b);
    }
  }

  lemma {:induction false} StandardTotal(frames: seq<Frame>)
    ensures ChangesIn(ParseLines(Parser("", ""), StreamLines(frames))) == Total(StandardCount, frames)
  {
    if frames != [] {
      var lines, p := FrameLines(frames[0]), Parser("", "");
      ParseAppend(p, lines, StreamLines(frames[1..]));
      ChangesAppend(ParseLines(p, lines), ParseLines(p, StreamLines(frames[1..])));
      FrameParses(frames[0]);
      StandardTotal(frames[1..]);
    }
  }

  /** A frame on which the line machine and the standard part ways. */
  predicate Disagrees(f: Frame) {
    f.Event? && Strip(f.name) == FLAG_CHANGE && f.data != [] && (f.name != FLAG_CHANGE || |f.data| > 1)
  }

  lemma StripChange()
    ensures Strip(FLAG_CHANGE) == FLAG_CHANGE
  {
    assert FLAG_CHANGE[|FLAG_CHANGE| - 1] == 'e' && FLAG_CHANGE[0] == 'f';
  }

  lemma {:induction false} TotalsCompare(frames: seq<Frame>)
    ensures Total(StandardCount, frames) <= Total(ClientCount, frames)
    ensures Total(StandardCount, frames) == Total(ClientCount, frames)
            <==> forall i :: 0 <= i < |frames| ==> !Disagrees(frames[i])
  {
    StripChange();
    if frames != [] {
      TotalsCompare(frames[1..]);
      assert StandardCount(frames[0]) == ClientCount(frames[0]) <==> !Disagrees(frames[0]);
      assert forall i :: 0 < i < |frames| ==> frames[i] == frames[1..][i - 1];
    }
  }

  /**
   Over any stream of comments and events, the client refreshes exactly as often as the
   standard dispatches a flag-change event, if and only if no flag-change event has two or
   more data lines or a name padded with whitespace.
   */
  lemma WatchAgreesWithStandard(frames: seq<Frame>)
    ensures
      RefreshCount(None, StreamLines(frames)) == ChangesIn(ParseLines(Parser("", ""), StreamLines(frames)))
      <==> forall i :: 0 <= i < |frames| ==> !Disagrees(frames[i])
  {
    ClientTotal(frames);
    StandardTotal(frames);
    TotalsCompare(frames);
  }
}
