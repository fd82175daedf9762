/** What the IPC server makes of a line, and a whole exchange: a request is sent, served, answered and the
    answer read. */
module IpcServer {
  import opened Integers
  import opened IpcWire
  import opened Json
  import opened JsonGrammar
  import opened JsonLayout
  import opened JsonParser
  import opened JsonRoundTrip
  import opened Options

  /** Handlers by method name: what each answers to its parameters. */
  type Handlers = map<string, Json -> Given>

  datatype Reaction = Silent | Notified(name: string, params: Json) | Replied(line: string)

  function IdOf(msg: Json): Json {
    match Get(msg, "id") case Some(id) => id case None => Null
  }

  function Answer(id: Json, given: Given): string {
    match given
    case Value(v) => Dump(ResultMessage(id, v), 0, 0)
    case Error(code, message) => Dump(ErrorMessage(id, code, message), 0, 0)
  }

  /** IpcServer::HandleMessage. */
  function Serve(line: string, handlers: Handlers, listening: set<string>): Reaction {
    match ParseText(line)
    case Some(Obj(ms)) => ServeMessage(Obj(ms), handlers, listening)
    case _ => Replied(Answer(Null, Error(-32700, "Parse error")))
  }

  function ServeMessage(msg: Json, handlers: Handlers, listening: set<string>): Reaction {
    match Get(msg, "method")
    case Some(Str(name)) =>
      var params := match Get(msg, "params") case Some(p) => p case None => Obj([]);
      if Get(msg, "id") == None then
        if name in listening then Notified(name, params) else Silent
      else if name in handlers then Replied(Answer(IdOf(msg), handlers[name](params)))
      else Replied(Answer(IdOf(msg), Error(-32601, "Method not found: " + name)))
    case _ => Replied(Answer(IdOf(msg), Error(-32600, "Invalid Request")))
  }

  // ----- Requests as text -----

  /** The text of a request, key by key. */
  lemma RequestText(id: int, name: string, params: Json)
    requires Id(id)
    ensures exists digits :: (
      AllDigits(digits) && Decimal(digits, id)
      && Dump(Request(id, name, params), 0, 0) ==
         "{" + "\"id\":" + digits + "," + "\"jsonrpc\":\"2.0\"" + "," + ("\"method\":" + StrText(name)) + ","
         + ("\"params\":" + Dump(params, 1, 0)) + "}")
  {
    hide Dump, StrText, Request, AllDigits, Decimal, MemberText;
    RequestMembers(id, name, params);
    var a, b, c, d := Member("id", Integer(id)), Member("jsonrpc", Str("2.0")), Member("method", Str(name)), Member("params", params);
    PlainLayout(Integer(id), 1, 0);
    FourMembers(a, b, c, d);
    MemberTexts(id, name, params);
  }

  lemma MemberTexts(id: int, name: string, params: Json)
    ensures MemberText(Member("id", Integer(id))) == "\"id\":" + Dump(Integer(id), 1, 0)
    ensures MemberText(Member("jsonrpc", Str("2.0"))) == "\"jsonrpc\":\"2.0\""
    ensures MemberText(Member("method", Str(name))) == "\"method\":" + StrText(name)
    ensures MemberText(Member("params", params)) == "\"params\":" + Dump(params, 1, 0)
  {
    hide Dump, StrText;
    Key("id");
    Key("jsonrpc");
    Key("2.0");
    Key("method");
    Key("params");
    StringValue("2.0");
    StringValue(name);
  }

  lemma StringValue(s: string)
    ensures Dump(Str(s), 1, 0) == StrText(s)
  {
  }

  /** A member on one line. */
  function MemberText(m: Member): string {
    StrText(m.key) + ":" + Dump(m.value, 1, 0)
  }

  lemma Next(m: Member, ms: seq<Member>)
    ensures DumpMembers([m] + ms, 0, 0) == "," + MemberText(m) + DumpMembers(ms, 0, 0)
    ensures Dump(Obj([m] + ms), 0, 0) == "{" + MemberText(m) + DumpMembers(ms, 0, 0)
  {
    hide StrText;
    assert ([m] + ms)[1..] == ms;
    assert "{" + "" + StrText(m.key) + ":" == "{" + (StrText(m.key) + ":");
    assert "," + "" + StrText(m.key) + ":" == "," + (StrText(m.key) + ":");
  }

  lemma Last()
    ensures DumpMembers([], 0, 0) == "}"
  {
  }

  lemma FourMembers(a: Member, b: Member, c: Member, d: Member)
    ensures Dump(Obj([a, b, c, d]), 0, 0) ==
            "{" + MemberText(a) + "," + MemberText(b) + "," + MemberText(c) + "," + MemberText(d) + "}"
  {
    Next(a, [b, c, d]);
    Next(b, [c, d]);
    Next(c, [d]);
    Next(d, []);
    Last();
    hide *;
    assert [a] + [b, c, d] == [a, b, c, d] && [b] + [c, d] == [b, c, d] && [c] + [d] == [c, d] && [d] + [] == [d];
  }

  /** Text that needs no escape. */
  lemma {:induction false} Unescaped(s: string)
    requires forall i :: 0 <= i < |s| ==> s[i] as int >= 0x20 && s[i] != '\"' && s[i] != '\\'
    ensures EscapedAll(s) == s
    decreases |s|
  {
    if |s| > 0 { Unescaped(s[1..]); }
  }

  lemma Key(s: string)
    requires forall i :: 0 <= i < |s| ==> s[i] as int >= 0x20 && s[i] != '\"' && s[i] != '\\'
    ensures StrText(s) == "\"" + s + "\""
  {
    hide EscapedAll;
    Unescaped(s);
  }

  // ----- Exchanges -----

  ghost predicate GivenOk(given: Given) {
    match given
    case Value(v) => WellFormed(v) && FloatFree(v)
    case Error(code, _) => -0x8000_0000 <= code < 0x8000_0000
  }

  /** What is given to a call when the server answers so: a result as deep as a text may be is lost. */
  function Heard(id: nat, given: Given): Reading {
    if given.Value? && Height(given.value) >= 100 then Ignored else Reply(id, given)
  }

  lemma AnswerReads(id: int, given: Given)
    requires Id(id) && GivenOk(given)
    ensures HandleLine(Answer(Integer(id), given)) == Heard(id, given)
  {
    hide HandleLine, Dump, ResultMessage, ErrorMessage, Height, WellFormed, FloatFree;
    match given
    case Value(v) => ResultArrives(id, v);
    case Error(code, message) => ErrorArrives(id, code, message);
  }

  /** An answer to nobody is for no call. */
  lemma NobodyReads(code: int, message: string)
    requires INT64_MIN <= code <= INT64_MAX
    ensures HandleLine(Answer(Null, Error(code, message))) == Ignored
  {
    hide Dump, ErrorMessage, ErrorObject, ParseText, Handle, WellFormed, FloatFree, Height;
    NobodyWellFormed(code, message);
    RoundTrip(ErrorMessage(Null, code, message), 0);
    NobodyHandled(code, message);
  }

  lemma NobodyWellFormed(code: int, message: string)
    requires INT64_MIN <= code <= INT64_MAX
    ensures var v := ErrorMessage(Null, code, message); WellFormed(v) && FloatFree(v) && Height(v) == 2
  {
    ErrorMembers(Null, code, message);
    var x, y := Member("code", Integer(code)), Member("message", Str(message));
    var a, b, c := Member("error", ErrorObject(code, message)), Member("id", Null), Member("jsonrpc", Str("2.0"));
    hide ErrorMessage, ErrorObject, Insert, LexLess;
    SortedByFirst([a, b, c]);
    SortedByFirst([x, y]);
    ThreeMembers(a, b, c);
    MembersCons(x, [y]);
    MembersCons(y, []);
    assert [x] + [y] == [x, y] && [y] + [] == [y];
    hide Sorted;
  }

  lemma NobodyHandled(code: int, message: string)
    ensures Handle(ErrorMessage(Null, code, message)) == Ignored
  {
    ErrorMembers(Null, code, message);
    var ms := [Member("error", ErrorObject(code, message)), Member("id", Null), Member("jsonrpc", Str("2.0"))];
    hide ErrorMessage, ErrorObject, Insert, Lookup, GivenBy;
    LookupAt(ms, 1);
    LookupNone(ms, "method");
  }

  /** A whole exchange.  Every request is answered, and what the caller is given is what the handler of its
      method makes of its parameters, or the error -32601 where there is no handler.  The caller is given
      nothing at all exactly when its parameters or the result are as deep as a text may be. */
  lemma Exchange(id: int, name: string, params: Json, handlers: Handlers, listening: set<string>)
    requires Id(id) && WellFormed(params) && FloatFree(params)
    requires name in handlers ==> GivenOk(handlers[name](params))
    ensures var r := Serve(Dump(Request(id, name, params), 0, 0), handlers, listening);
      && r.Replied?
      && HandleLine(r.line) ==
         if Height(params) >= 100 then Ignored
         else if name in handlers then
           match handlers[name](params)
           case Value(v) => if Height(v) >= 100 then Ignored else Reply(id, Value(v))
           case Error(code, message) => Reply(id, Error(code, message))
         else Reply(id, Error(-32601, "Method not found: " + name))
  {
    hide HandleLine, Dump, Request, Answer, Height, ParseText, WellFormed, FloatFree, GivenOk, Get;
    RequestArrives(id, name, params);
    RequestServed(id, name, params, handlers, listening);
    var missing := Error(-32601, "Method not found: " + name);
    assert GivenOk(missing) by { Errors(-32601, "Method not found: " + name); }
    if Height(params) >= 100 {
      NobodyReads(-32700, "Parse error");
    } else if name in handlers {
      AnswerReads(id, handlers[name](params));
    } else {
      AnswerReads(id, missing);
    }
  }

  lemma Errors(code: int, message: string)
    ensures GivenOk(Error(code, message)) <==> -0x8000_0000 <= code < 0x8000_0000
  {
  }

  lemma RequestServed(id: int, name: string, params: Json, handlers: Handlers, listening: set<string>)
    requires var msg := ParseText(Dump(Request(id, name, params), 0, 0));
      if Height(params) >= 100 then msg == None
      else msg.Some? && Get(msg.value, "id") == Some(Integer(id)) && Get(msg.value, "method") == Some(Str(name))
           && Get(msg.value, "params") == Some(params)
    ensures Serve(Dump(Request(id, name, params), 0, 0), handlers, listening) ==
            Replied(if Height(params) >= 100 then Answer(Null, Error(-32700, "Parse error"))
                    else Answer(Integer(id), if name in handlers then handlers[name](params)
                                             else Error(-32601, "Method not found: " + name)))
  {
    hide Dump, Request, Answer, Height, ParseText, Lookup;
  }

  // ----- Notifications -----

  /** What either side sends as a notification: a request without an id. */
  function Notification(name: string, params: Json): Json {
    Obj(Insert(Insert(Insert([], "jsonrpc", Str("2.0")), "method", Str(name)), "params", params))
  }

  lemma NotificationMembers(name: string, params: Json)
    ensures Notification(name, params) == Obj([Member("jsonrpc", Str("2.0")), Member("method", Str(name)), Member("params", params)])
  {
    hide Insert;
    var a, b := Member("jsonrpc", Str("2.0")), Member("method", Str(name));
    InsertByFirst([], "jsonrpc", a.value);
    InsertByFirst([a], "method", b.value);
    InsertByFirst([], "method", b.value);
    InsertThird(a, b, "params", params);
    assert [a][1..] == [] && [a] + [b] == [a, b];
    assert Insert([], "jsonrpc", a.value) == [a];
    assert Insert([a], "method", b.value) == [a, b];
  }

  lemma NotificationRead(name: string, params: Json)
    requires WellFormed(params) && FloatFree(params)
    ensures ParseText(Dump(Notification(name, params), 0, 0)) ==
            if Height(params) >= 100 then None else Some(Notification(name, params))
  {
    NotificationMembers(name, params);
    var a, b, c := Member("jsonrpc", Str("2.0")), Member("method", Str(name)), Member("params", params);
    hide Notification, Insert, LexLess, Dump, ParseText;
    SortedByFirst([a, b, c]);
    ThreeMembers(a, b, c);
    hide Sorted, MembersWellFormed, MembersFloatFree, MembersHeight;
    RoundTrip(Obj([a, b, c]), 0);
  }

  lemma NotificationSays(name: string, params: Json)
    ensures var msg := Notification(name, params);
      && msg.Obj? && Get(msg, "method") == Some(Str(name)) && Get(msg, "params") == Some(params) && Get(msg, "id") == None
  {
    NotificationMembers(name, params);
    var ms := [Member("jsonrpc", Str("2.0")), Member("method", Str(name)), Member("params", params)];
    hide Notification, Insert, Lookup;
    LookupAt(ms, 1);
    LookupAt(ms, 2);
    LookupNone(ms, "id");
  }

  /** A line that is a message is served, and read, as that message. */
  lemma Messages(line: string, handlers: Handlers, listening: set<string>)
    ensures var msg := ParseText(line);
      && HandleLine(line) == (if msg.Some? then Handle(msg.value) else Ignored)
      && Serve(line, handlers, listening) ==
         if msg.Some? && msg.value.Obj? then ServeMessage(msg.value, handlers, listening)
         else Replied(Answer(Null, Error(-32700, "Parse error")))
  {
    hide ParseText, Handle, ServeMessage, Answer;
  }

  lemma NotificationTaken(msg: Json, name: string, params: Json, handlers: Handlers, listening: set<string>)
    requires Get(msg, "method") == Some(Str(name)) && Get(msg, "params") == Some(params) && Get(msg, "id") == None
    ensures Handle(msg) == Notice(name, params)
    ensures ServeMessage(msg, handlers, listening) == if name in listening then Notified(name, params) else Silent
  {
    hide Get, Answer;
  }

  /** A notification is never answered, and is heard on the other side, server or client, with its name and
      parameters; unless these are as deep as a text may be: then the server answers to nobody. */
  lemma Notices(name: string, params: Json, handlers: Handlers, listening: set<string>)
    requires WellFormed(params) && FloatFree(params)
    ensures var line := Dump(Notification(name, params), 0, 0);
      if Height(params) < 100 then
        && HandleLine(line) == Notice(name, params)
        && Serve(line, handlers, listening) == if name in listening then Notified(name, params) else Silent
      else
        && HandleLine(line) == Ignored
        && Serve(line, handlers, listening).Replied? && HandleLine(Serve(line, handlers, listening).line) == Ignored
  {
    hide Dump, Notification, ParseText, Height, Get, Handle, ServeMessage, HandleLine, Serve, Answer, WellFormed, FloatFree;
    var line := Dump(Notification(name, params), 0, 0);
    NotificationRead(name, params);
    NotificationSays(name, params);
    Messages(line, handlers, listening);
    if Height(params) < 100 {
      NotificationTaken(Notification(name, params), name, params, handlers, listening);
    } else {
      NobodyReads(-32700, "Parse error");
    }
  }
}
