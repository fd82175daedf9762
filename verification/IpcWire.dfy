/** What travels between an IPC client and its server: one JSON text per line.

    ReadLoop collects bytes and hands on whole lines; a printed message has no line break inside,
    so however the stream is cut, the lines handed on are the messages sent. */
module IpcWire {
  import opened Json
  import opened JsonParser
  import opened JsonRoundTrip
  import opened Integers
  import opened Options
  import opened Text

  // ----- Lines -----

  /** The lines given to HandleMessage so far, and read_buf. */
  datatype Lines = Lines(handled: seq<string>, part: string)

  function Collect(l: Lines, c: char): Lines {
    if c != '\n' then Lines(l.handled, l.part + [c])
    else if l.part == "" then l
    else Lines(l.handled + [l.part], "")
  }

  function Feed(l: Lines, s: string): Lines
    decreases |s|
  {
    if |s| == 0 then l else Feed(Collect(l, s[0]), s[1..])
  }

  function FeedAll(l: Lines, chunks: seq<string>): Lines
    decreases |chunks|
  {
    if |chunks| == 0 then l else FeedAll(Feed(l, chunks[0]), chunks[1..])
  }

  lemma {:induction false} FeedConcat(l: Lines, a: string, b: string)
    ensures Feed(l, a + b) == Feed(Feed(l, a), b)
    decreases |a|
  {
    if |a| == 0 {
      assert a + b == b;
    } else {
      assert (a + b)[0] == a[0] && (a + b)[1..] == a[1..] + b;
      FeedConcat(Collect(l, a[0]), a[1..], b);
    }
  }

  /** How the stream is cut into reads does not matter. */
  lemma {:induction false} CutsDoNotMatter(l: Lines, chunks: seq<string>)
    ensures FeedAll(l, chunks) == Feed(l, Concat(chunks))
    decreases |chunks|
  {
    if |chunks| > 0 {
      FeedConcat(l, chunks[0], Concat(chunks[1..]));
      CutsDoNotMatter(Feed(l, chunks[0]), chunks[1..]);
    }
  }

  /** Bytes without a line break pile up in read_buf. */
  lemma {:induction false} FeedPart(l: Lines, s: string)
    requires '\n' !in s
    ensures Feed(l, s) == Lines(l.handled, l.part + s)
    decreases |s|
  {
    if |s| == 0 {
      assert l.part + s == l.part;
    } else {
      FeedPart(Collect(l, s[0]), s[1..]);
      assert l.part + [s[0]] + s[1..] == l.part + s;
    }
  }

  /** One whole line. */
  lemma FeedLine(handled: seq<string>, line: string)
    requires '\n' !in line && line != ""
    ensures Feed(Lines(handled, ""), line + "\n") == Lines(handled + [line], "")
  {
    FeedConcat(Lines(handled, ""), line, "\n");
    FeedPart(Lines(handled, ""), line);
    assert "" + line == line;
    assert "\n"[1..] == "";
  }

  /** The reader's loop over a connection. */
  class LineReader {
    var readBuf: string
    var handled: seq<string>

    predicate Valid()
      reads this
    {
      '\n' !in readBuf
    }

    constructor ()
      ensures Valid() && readBuf == "" && handled == []
    {
      readBuf, handled := "", [];
    }

    /** One read: append it, then cut off and handle every whole line. */
    method OnRead(chunk: string)
      requires Valid()
      modifies this
      ensures Valid() && Lines(handled, readBuf) == Feed(old(Lines(handled, readBuf)), chunk)
    {
      ghost var before := Lines(handled, readBuf);
      FeedPart(Lines(handled, ""), readBuf);
      assert "" + readBuf == readBuf;
      FeedConcat(Lines(handled, ""), readBuf, chunk);
      readBuf := readBuf + chunk;
      var pos := FindChar(readBuf, '\n');
      while pos < |readBuf|
        invariant 0 <= pos <= |readBuf| && '\n' !in readBuf[..pos] && (pos < |readBuf| ==> readBuf[pos] == '\n')
        invariant Feed(Lines(handled, ""), readBuf) == Feed(before, chunk)
        decreases |readBuf|
      {
        var line := readBuf[..pos];
        LineOff(handled, readBuf, pos);
        readBuf := readBuf[pos + 1..];
        if line != "" { handled := handled + [line]; }
        pos := FindChar(readBuf, '\n');
      }
      assert readBuf[..pos] == readBuf;
      FeedPart(Lines(handled, ""), readBuf);
      assert "" + readBuf == readBuf;
    }
  }

  /** std::string::find, with the length standing for npos. */
  method FindChar(s: string, c: char) returns (pos: nat)
    ensures pos <= |s| && c !in s[..pos] && (pos < |s| ==> s[pos] == c)
  {
    pos := 0;
    while pos < |s| && s[pos] != c
      invariant pos <= |s| && c !in s[..pos]
    {
      pos := pos + 1;
    }
  }

  lemma LineOff(handled: seq<string>, buf: string, pos: nat)
    requires pos < |buf| && buf[pos] == '\n' && '\n' !in buf[..pos]
    ensures Feed(Lines(handled, ""), buf) ==
            Feed(Lines(if pos == 0 then handled else handled + [buf[..pos]], ""), buf[pos + 1..])
  {
    var line := buf[..pos];
    assert buf == (line + "\n") + buf[pos + 1..];
    FeedConcat(Lines(handled, ""), line + "\n", buf[pos + 1..]);
    if pos == 0 {
      assert line + "\n" == "\n" && "\n"[1..] == "";
    } else {
      FeedLine(handled, line);
    }
  }

  // ----- A printed value is one line -----

  lemma {:induction false} NatOneLine(n: nat)
    ensures '\n' !in NatText(n)
    decreases n
  {
    if n >= 10 { NatOneLine(n / 10); }
  }

  lemma EscapedOneLine(c: char)
    ensures '\n' !in Escaped(c)
  {
  }

  lemma {:induction false} TextOneLine(s: string)
    ensures '\n' !in EscapedAll(s)
    decreases |s|
  {
    if s != "" {
      EscapedOneLine(s[0]);
      hide Escaped;
      TextOneLine(s[1..]);
    }
  }

  lemma StrOneLine(s: string)
    ensures '\n' !in StrText(s)
  {
    TextOneLine(s);
    hide EscapedAll;
  }

  /** Compact printing breaks no line, whatever the strings contain. */
  lemma {:induction false} DumpOneLine(v: Json, depth: nat)
    requires FloatFree(v)
    ensures '\n' !in Dump(v, depth, 0)
    decreases v, 1
  {
    hide StrText;
    match v {
      case Integer(n) => NatOneLine(if n < 0 then -n else n);
      case Str(s) => StrOneLine(s);
      case Arr(es) => if es != [] { DumpOneLine(es[0], depth + 1); ElemsOneLine(es[1..], depth); }
      case Obj(ms) =>
        if ms != [] { StrOneLine(ms[0].key); DumpOneLine(ms[0].value, depth + 1); MembersOneLine(ms[1..], depth); }
      case _ =>
    }
  }

  lemma {:induction false} ElemsOneLine(es: seq<Json>, depth: nat)
    requires AllFloatFree(es)
    ensures '\n' !in DumpElems(es, depth, 0)
    decreases es, 0
  {
    if es != [] { DumpOneLine(es[0], depth + 1); ElemsOneLine(es[1..], depth); }
    hide Dump;
  }

  lemma {:induction false} MembersOneLine(ms: seq<Member>, depth: nat)
    requires MembersFloatFree(ms)
    ensures '\n' !in DumpMembers(ms, depth, 0)
    decreases ms, 0
  {
    if ms != [] { StrOneLine(ms[0].key); DumpOneLine(ms[0].value, depth + 1); MembersOneLine(ms[1..], depth); }
    hide Dump, StrText;
  }

  // ----- A stream of messages -----

  /** SendJson for each message in turn. */
  function Sent(messages: seq<Json>): string
    decreases |messages|
  {
    if |messages| == 0 then "" else (Dump(messages[0], 0, 0) + "\n") + Sent(messages[1..])
  }

  function Texts(messages: seq<Json>): seq<string> {
    seq(|messages|, i requires 0 <= i < |messages| => Dump(messages[i], 0, 0))
  }

  lemma {:induction false} SentLines(messages: seq<Json>, handled: seq<string>)
    requires forall i :: 0 <= i < |messages| ==> WellFormed(messages[i]) && FloatFree(messages[i])
    ensures Feed(Lines(handled, ""), Sent(messages)) == Lines(handled + Texts(messages), "")
    decreases |messages|
  {
    hide Dump, WellFormed, FloatFree;
    if |messages| == 0 {
      assert handled + Texts(messages) == handled;
    } else {
      var line := Dump(messages[0], 0, 0);
      DumpOneLine(messages[0], 0);
      DumpBegins(messages[0], 0, 0);
      FeedConcat(Lines(handled, ""), line + "\n", Sent(messages[1..]));
      FeedLine(handled, line);
      SentLines(messages[1..], handled + [line]);
      assert handled + [line] + Texts(messages[1..]) == handled + Texts(messages);
    }
  }

  /** Whatever the messages, and however their bytes are cut into reads, the lines handled parse back
      to exactly the messages sent, in order, and nothing is left over; a message parses only if no
      node of it lies below level 100. */
  lemma MessagesArrive(messages: seq<Json>, chunks: seq<string>)
    requires forall i :: 0 <= i < |messages| ==> WellFormed(messages[i]) && FloatFree(messages[i])
    requires Concat(chunks) == Sent(messages)
    ensures var l := FeedAll(Lines([], ""), chunks);
      && l.part == "" && |l.handled| == |messages|
      && forall i :: 0 <= i < |messages| ==>
           ParseText(l.handled[i]) == if Height(messages[i]) <= MAX_PARSE_DEPTH then Some(messages[i]) else None
  {
    hide Dump, WellFormed, FloatFree, ParseText, Height, Feed, FeedAll;
    CutsDoNotMatter(Lines([], ""), chunks);
    SentLines(messages, []);
    assert [] + Texts(messages) == Texts(messages);
    forall i | 0 <= i < |messages|
      ensures ParseText(Texts(messages)[i]) == if Height(messages[i]) <= MAX_PARSE_DEPTH then Some(messages[i]) else None
    {
      RoundTrip(messages[i], 0);
    }
  }

  // ----- Requests and responses -----

  /** What a response gives its call. */
  datatype Given = Value(value: Json) | Error(code: int, message: string)

  /** What the client makes of a line. */
  datatype Reading = Ignored | Notice(name: string, params: Json) | Reply(id: nat, given: Given)

  /** std::map::find. */
  function Lookup(ms: seq<Member>, key: string): Option<Json>
    decreases |ms|
  {
    if |ms| == 0 then None else if ms[0].key == key then Some(ms[0].value) else Lookup(ms[1..], key)
  }

  /** Json::find, and get. */
  function Get(v: Json, key: string): Option<Json> {
    if v.Obj? then Lookup(v.members, key) else None
  }

  /** What a response says: its error object, or its result, or null. */
  function GivenBy(msg: Json): Given {
    match Get(msg, "error")
    case Some(Obj(e)) =>
      Error(match Lookup(e, "code") case Some(Integer(n)) => ToInt(n) case _ => -1,
            match Lookup(e, "message") case Some(Str(m)) => m case _ => "unknown error")
    case _ =>
      match Get(msg, "result")
      case Some(v) => Value(v)
      case None => Value(Null)
  }

  /** HandleMessage, up to the search of the pending table. */
  function Handle(msg: Json): Reading {
    match (Get(msg, "method"), Get(msg, "id"))
    case (Some(Str(m)), None) => Notice(m, match Get(msg, "params") case Some(p) => p case None => Obj([]))
    case (_, Some(Integer(n))) => Reply(n % 0x1_0000_0000_0000_0000, GivenBy(msg))
    case _ => Ignored
  }

  function HandleLine(line: string): Reading {
    match ParseText(line)
    case None => Ignored
    case Some(msg) => Handle(msg)
  }

  /** The message Call and CallAsync send: the keys in the order they are set. */
  function Request(id: int, name: string, params: Json): Json {
    Obj(Insert(Insert(Insert(Insert([], "jsonrpc", Str("2.0")), "id", Integer(id)), "method", Str(name)), "params", params))
  }

  /** The server's answers, with the id it found in the request. */
  function ResultMessage(id: Json, result: Json): Json {
    Obj(Insert(Insert(Insert([], "jsonrpc", Str("2.0")), "id", id), "result", result))
  }

  function ErrorMessage(id: Json, code: int, message: string): Json {
    Obj(Insert(Insert(Insert([], "jsonrpc", Str("2.0")), "id", id), "error", ErrorObject(code, message)))
  }

  function ErrorObject(code: int, message: string): Json {
    Obj(Insert(Insert([], "code", Integer(code)), "message", Str(message)))
  }

  /** Inserting where the keys' first letters decide. */
  lemma InsertByFirst(m: seq<Member>, k: string, v: Json)
    requires k != "" && forall i :: 0 <= i < |m| ==> m[i].key != "" && m[i].key[0] != k[0]
    ensures m != [] && m[0].key[0] < k[0] ==> Insert(m, k, v) == [m[0]] + Insert(m[1..], k, v)
    ensures m == [] || k[0] < m[0].key[0] ==> Insert(m, k, v) == [Member(k, v)] + m
  {
  }

  /** After two smaller keys. */
  lemma InsertThird(a: Member, b: Member, k: string, v: Json)
    requires a.key != "" && b.key != "" && k != "" && a.key[0] < k[0] && b.key[0] < k[0]
    ensures Insert([a, b], k, v) == [a, b, Member(k, v)]
  {
    InsertByFirst([a, b], k, v);
    InsertByFirst([b], k, v);
    InsertByFirst([], k, v);
    hide Insert;
    assert [a, b][1..] == [b] && [b][1..] == [];
    assert Insert([b], k, v) == [b, Member(k, v)];
  }

  /** The members every answer starts with. */
  lemma AnswerHead(id: Json)
    ensures Insert(Insert([], "jsonrpc", Str("2.0")), "id", id) == [Member("id", id), Member("jsonrpc", Str("2.0"))]
  {
    InsertByFirst([], "jsonrpc", Str("2.0"));
    InsertByFirst([Member("jsonrpc", Str("2.0"))], "id", id);
    hide Insert;
    assert Insert([], "jsonrpc", Str("2.0")) == [Member("jsonrpc", Str("2.0"))];
  }

  lemma RequestMembers(id: int, name: string, params: Json)
    ensures Request(id, name, params) ==
            Obj([Member("id", Integer(id)), Member("jsonrpc", Str("2.0")), Member("method", Str(name)), Member("params", params)])
  {
    var a, b, c, d := Member("jsonrpc", Str("2.0")), Member("id", Integer(id)), Member("method", Str(name)), Member("params", params);
    AnswerHead(Integer(id));
    InsertThird(b, a, "method", Str(name));
    InsertByFirst([b, a, c], "params", params);
    InsertThird(a, c, "params", params);
    hide Insert;
    assert [b, a, c][1..] == [a, c];
    assert Insert([b, a, c], "params", params) == [b, a, c, d];
  }

  lemma ResultMembers(id: Json, v: Json)
    ensures ResultMessage(id, v) == Obj([Member("id", id), Member("jsonrpc", Str("2.0")), Member("result", v)])
  {
    AnswerHead(id);
    InsertThird(Member("id", id), Member("jsonrpc", Str("2.0")), "result", v);
    hide Insert;
  }

  lemma ErrorMembers(id: Json, code: int, message: string)
    ensures ErrorMessage(id, code, message) ==
            Obj([Member("error", ErrorObject(code, message)), Member("id", id), Member("jsonrpc", Str("2.0"))])
    ensures ErrorObject(code, message) == Obj([Member("code", Integer(code)), Member("message", Str(message))])
  {
    AnswerHead(id);
    var e, m := Member("code", Integer(code)), Member("message", Str(message));
    InsertByFirst([], "code", e.value);
    InsertByFirst([e], "message", m.value);
    InsertByFirst([], "message", m.value);
    InsertByFirst([Member("id", id), Member("jsonrpc", Str("2.0"))], "error", ErrorObject(code, message));
    hide Insert;
    assert [e][1..] == [] && Insert([], "code", e.value) == [e] && Insert([], "message", m.value) == [m];
    assert [e] + [m] == [e, m];
  }

  lemma {:induction false} LookupAt(ms: seq<Member>, i: nat)
    requires i < |ms| && forall j :: 0 <= j < i ==> ms[j].key != ms[i].key
    ensures Lookup(ms, ms[i].key) == Some(ms[i].value)
    decreases i
  {
    if i > 0 { LookupAt(ms[1..], i - 1); }
  }

  lemma {:induction false} LookupNone(ms: seq<Member>, key: string)
    requires forall j :: 0 <= j < |ms| ==> ms[j].key != key
    ensures Lookup(ms, key) == None
    decreases |ms|
  {
    if |ms| > 0 { LookupNone(ms[1..], key); }
  }

  lemma SortedByFirst(ms: seq<Member>)
    requires forall i :: 0 <= i < |ms| ==> ms[i].key != ""
    requires forall i, j :: 0 <= i < j < |ms| ==> ms[i].key[0] < ms[j].key[0]
    ensures Sorted(ms)
  {
  }

  /** One more member in front. */
  lemma MembersCons(m: Member, ms: seq<Member>)
    ensures MembersWellFormed([m] + ms) == (WellFormed(m.value) && MembersWellFormed(ms))
    ensures MembersFloatFree([m] + ms) == (FloatFree(m.value) && MembersFloatFree(ms))
    ensures MembersHeight([m] + ms) == Max(1 + Height(m.value), MembersHeight(ms))
  {
    hide WellFormed, FloatFree, Height;
    assert ([m] + ms)[1..] == ms;
  }

  lemma ThreeMembers(a: Member, b: Member, c: Member)
    ensures MembersWellFormed([a, b, c]) == (WellFormed(a.value) && WellFormed(b.value) && WellFormed(c.value))
    ensures MembersFloatFree([a, b, c]) == (FloatFree(a.value) && FloatFree(b.value) && FloatFree(c.value))
    ensures MembersHeight([a, b, c]) == 1 + Max(Height(a.value), Max(Height(b.value), Height(c.value)))
  {
    MembersCons(c, []);
    MembersCons(b, [c]);
    MembersCons(a, [b, c]);
    hide WellFormed, FloatFree, Height;
    assert [c] + [] == [c] && [b] + [c] == [b, c] && [a] + [b, c] == [a, b, c];
  }

  predicate Id(id: int) {
    1 <= id <= INT64_MAX
  }

  /** The server reads the request it was sent: the id, method and parameters of the call; unless
      the parameters alone are already as deep as a text may be. */
  lemma RequestArrives(id: int, name: string, params: Json)
    requires Id(id) && WellFormed(params) && FloatFree(params)
    ensures var msg := ParseText(Dump(Request(id, name, params), 0, 0));
      if Height(params) >= MAX_PARSE_DEPTH then msg == None
      else msg.Some? && Get(msg.value, "id") == Some(Integer(id)) && Get(msg.value, "method") == Some(Str(name))
           && Get(msg.value, "params") == Some(params)
  {
    hide Dump, ParseText, Request, Lookup, WellFormed, FloatFree, Height;
    RequestWellFormed(id, name, params);
    RoundTrip(Request(id, name, params), 0);
    RequestMembers(id, name, params);
    var ms := [Member("id", Integer(id)), Member("jsonrpc", Str("2.0")), Member("method", Str(name)), Member("params", params)];
    LookupAt(ms, 0);
    LookupAt(ms, 2);
    LookupAt(ms, 3);
  }

  lemma RequestWellFormed(id: int, name: string, params: Json)
    requires Id(id) && WellFormed(params) && FloatFree(params)
    ensures var v := Request(id, name, params); WellFormed(v) && FloatFree(v) && Height(v) == 1 + Height(params)
  {
    RequestMembers(id, name, params);
    var a, b, c, d := Member("id", Integer(id)), Member("jsonrpc", Str("2.0")), Member("method", Str(name)), Member("params", params);
    hide Request, Insert, LexLess;
    SortedByFirst([a, b, c, d]);
    ThreeMembers(b, c, d);
    MembersCons(a, [b, c, d]);
    assert [a] + [b, c, d] == [a, b, c, d];
    hide Sorted;
  }

  lemma ResultHandled(id: int, v: Json)
    requires Id(id)
    ensures Handle(ResultMessage(Integer(id), v)) == Reply(id, Value(v))
  {
    ResultMembers(Integer(id), v);
    var ms := [Member("id", Integer(id)), Member("jsonrpc", Str("2.0")), Member("result", v)];
    hide ResultMessage, Insert, Lookup;
    LookupAt(ms, 0);
    LookupAt(ms, 2);
    LookupNone(ms, "method");
    LookupNone(ms, "error");
  }

  /** The client reads the server's result as a reply with the call's id and that result; a result
      that can be printed but is as deep as a text may be is lost: its line is ignored. */
  lemma ResultArrives(id: int, v: Json)
    requires Id(id) && WellFormed(v) && FloatFree(v)
    ensures HandleLine(Dump(ResultMessage(Integer(id), v), 0, 0)) ==
            if Height(v) >= MAX_PARSE_DEPTH then Ignored else Reply(id, Value(v))
  {
    ResultMembers(Integer(id), v);
    var a, b, c := Member("id", Integer(id)), Member("jsonrpc", Str("2.0")), Member("result", v);
    hide ResultMessage, Insert, Lookup, LexLess, Dump, ParseText, Handle;
    SortedByFirst([a, b, c]);
    ThreeMembers(a, b, c);
    hide Sorted, MembersWellFormed, MembersFloatFree, MembersHeight;
    RoundTrip(Obj([a, b, c]), 0);
    ResultHandled(id, v);
  }

  lemma ErrorHandled(id: int, code: int, message: string)
    requires Id(id) && -0x8000_0000 <= code < 0x8000_0000
    ensures Handle(ErrorMessage(Integer(id), code, message)) == Reply(id, Error(code, message))
  {
    ErrorMembers(Integer(id), code, message);
    var es := [Member("code", Integer(code)), Member("message", Str(message))];
    var ms := [Member("error", ErrorObject(code, message)), Member("id", Integer(id)), Member("jsonrpc", Str("2.0"))];
    hide ErrorMessage, ErrorObject, Insert, Lookup;
    LookupAt(ms, 0);
    LookupAt(ms, 1);
    LookupNone(ms, "method");
    LookupAt(es, 0);
    LookupAt(es, 1);
  }

  lemma ErrorWellFormed(id: int, code: int, message: string)
    requires Id(id) && -0x8000_0000 <= code < 0x8000_0000
    ensures var v := ErrorMessage(Integer(id), code, message); WellFormed(v) && FloatFree(v) && Height(v) == 2
  {
    ErrorMembers(Integer(id), code, message);
    var x, y := Member("code", Integer(code)), Member("message", Str(message));
    var a, b, c := Member("error", ErrorObject(code, message)), Member("id", Integer(id)), Member("jsonrpc", Str("2.0"));
    hide ErrorMessage, ErrorObject, Insert, LexLess;
    SortedByFirst([a, b, c]);
    SortedByFirst([x, y]);
    ThreeMembers(a, b, c);
    MembersCons(x, [y]);
    MembersCons(y, []);
    assert [x] + [y] == [x, y] && [y] + [] == [y];
    hide Sorted;
  }

  /** And an error as that error, whatever its code and message. */
  lemma ErrorArrives(id: int, code: int, message: string)
    requires Id(id) && -0x8000_0000 <= code < 0x8000_0000
    ensures HandleLine(Dump(ErrorMessage(Integer(id), code, message), 0, 0)) == Reply(id, Error(code, message))
  {
    hide ErrorMessage, Dump, ParseText, Handle, WellFormed, FloatFree, Height;
    ErrorWellFormed(id, code, message);
    RoundTrip(ErrorMessage(Integer(id), code, message), 0);
    ErrorHandled(id, code, message);
  }
}
