/** multipart/form-data (RFC 7578, section 4): what the HTTP client sends, and what the server's
    parser makes of it. */
module Multipart {
  import opened Options
  import opened JsonParser
  import opened Text

  datatype Field = Field(name: string, value: string)

  datatype File = File(fieldName: string, filename: string, contentType: string, content: string)

  // ----- Sending -----

  /** snprintf into a buffer of n bytes. */
  function Printed(n: nat, s: string): string
    requires n > 0
  {
    if |s| < n then s else s[..n - 1]
  }

  const NAME_IS := "Content-Disposition: form-data; name=\""
  const FILENAME_IS := "\"; filename=\""
  const TYPE_IS := "Content-Type: "

  function FieldDisposition(f: Field): string {
    NAME_IS + CStr(f.name) + "\""
  }

  function FileDisposition(f: File): string {
    NAME_IS + CStr(f.fieldName) + FILENAME_IS + CStr(f.filename) + "\""
  }

  /** A part: its header lines, an empty line and its content. */
  function FieldPart(f: Field): string {
    Lines([Printed(128, FieldDisposition(f))]) + CRLF + f.value
  }

  function FilePart(f: File): string {
    Lines([Printed(256, FileDisposition(f)), TYPE_IS + f.contentType]) + CRLF + f.content
  }

  function Parts(fields: seq<Field>, files: seq<File>): seq<string> {
    seq(|fields|, i requires 0 <= i < |fields| => FieldPart(fields[i])) +
    seq(|files|, i requires 0 <= i < |files| => FilePart(files[i]))
  }

  /** Every part after a delimiter line, and the closing delimiter. */
  function Joined(delimiter: string, parts: seq<string>): string
    decreases |parts|
  {
    if |parts| == 0 then delimiter + "--" + CRLF
    else delimiter + CRLF + (parts[0] + CRLF + Joined(delimiter, parts[1..]))
  }

  /** SendMultipartBody. */
  function Body(boundary: string, fields: seq<Field>, files: seq<File>): string {
    Joined("--" + boundary, Parts(fields, files))
  }

  function FieldSize(boundary: string, f: Field): nat {
    (2 + |boundary| + 2) + (39 + |f.name| + 4) + (|f.value| + 2)
  }

  function FileSize(boundary: string, f: File): nat {
    (2 + |boundary| + 2) + (38 + |f.fieldName| + 13 + |f.filename| + 3) + (14 + |f.contentType| + 4) + |f.content| + 2
  }

  function FieldsSize(boundary: string, fields: seq<Field>): nat
    decreases |fields|
  {
    if |fields| == 0 then 0 else FieldSize(boundary, fields[0]) + FieldsSize(boundary, fields[1..])
  }

  function FilesSize(boundary: string, files: seq<File>): nat
    decreases |files|
  {
    if |files| == 0 then 0 else FileSize(boundary, files[0]) + FilesSize(boundary, files[1..])
  }

  /** CalculateMultipartSize; it throws when a file is empty or cannot be read. */
  function BodySize(boundary: string, fields: seq<Field>, files: seq<File>): Option<nat> {
    if exists i :: 0 <= i < |files| && files[i].content == "" then None
    else Some(FieldsSize(boundary, fields) + FilesSize(boundary, files) + (2 + |boundary| + 4))
  }

  // ----- The size announced -----

  /** The disposition line is not cut short. */
  predicate FieldWhole(f: Field) {
    CStr(f.name) == f.name && 39 + |f.name| < 128
  }

  predicate FileWhole(f: File) {
    CStr(f.fieldName) == f.fieldName && CStr(f.filename) == f.filename && 52 + |f.fieldName| + |f.filename| < 256
  }

  lemma {:induction false} CStrShorter(s: string)
    ensures |CStr(s)| <= |s| && (|CStr(s)| == |s| ==> CStr(s) == s)
    decreases |s|
  {
    if |s| > 0 { CStrShorter(s[1..]); }
  }

  lemma FieldPartSize(boundary: string, f: Field)
    ensures var n := |"--" + boundary + CRLF + (FieldPart(f) + CRLF)|;
      n <= FieldSize(boundary, f) && (n == FieldSize(boundary, f) <==> FieldWhole(f))
  {
    CStrShorter(f.name);
    var d := Printed(128, FieldDisposition(f));
    assert Lines([d]) == d + CRLF + Lines([]);
    assert |FieldDisposition(f)| == 39 + |CStr(f.name)|;
  }

  lemma FilePartSize(boundary: string, f: File)
    ensures var n := |"--" + boundary + CRLF + (FilePart(f) + CRLF)|;
      n <= FileSize(boundary, f) && (n == FileSize(boundary, f) <==> FileWhole(f))
  {
    CStrShorter(f.fieldName);
    CStrShorter(f.filename);
    var d, t := Printed(256, FileDisposition(f)), TYPE_IS + f.contentType;
    assert [d, t][1..] == [t] && Lines([t]) == t + CRLF + Lines([]);
    assert Lines([d, t]) == d + CRLF + Lines([t]);
    assert |FileDisposition(f)| == 52 + |CStr(f.fieldName)| + |CStr(f.filename)|;
  }

  predicate AllWhole(fields: seq<Field>, files: seq<File>) {
    (forall i :: 0 <= i < |fields| ==> FieldWhole(fields[i])) && forall i :: 0 <= i < |files| ==> FileWhole(files[i])
  }

  /** When a size is announced, the bytes sent are at most as many, and exactly as many if and only if
      no disposition line is cut short by its buffer or by a NUL.  An empty file stops the request
      before anything is sent. */
  lemma SizeIsExact(boundary: string, fields: seq<Field>, files: seq<File>)
    ensures var n, announced := |Body(boundary, fields, files)|, BodySize(boundary, fields, files);
      && (announced.Some? <==> forall i :: 0 <= i < |files| ==> files[i].content != "")
      && (announced.Some? ==> n <= announced.value && (n == announced.value <==> AllWhole(fields, files)))
  {
    hide FieldWhole, FileWhole, AllWhole, FieldsSize, FilesSize, Body;
    SizeBound(boundary, fields, files);
  }

  lemma {:induction false} SizeBound(boundary: string, fields: seq<Field>, files: seq<File>)
    ensures var n, announced := |Body(boundary, fields, files)|, FieldsSize(boundary, fields) + FilesSize(boundary, files) + (2 + |boundary| + 4);
      && n <= announced
      && (n == announced <==> AllWhole(fields, files))
    decreases |fields| + |files|
  {
    hide FieldPart, FilePart, FieldWhole, FileWhole, FieldSize, FileSize;
    var parts := Parts(fields, files);
    if |fields| > 0 {
      FieldPartSize(boundary, fields[0]);
      SizeBound(boundary, fields[1..], files);
      assert parts[1..] == Parts(fields[1..], files);
      assert forall i :: 0 < i < |fields| ==> fields[i] == fields[1..][i - 1];
      assert (forall i :: 0 <= i < |fields| ==> FieldWhole(fields[i])) <==>
             FieldWhole(fields[0]) && forall i :: 0 <= i < |fields[1..]| ==> FieldWhole(fields[1..][i]);
    } else if |files| > 0 {
      FilePartSize(boundary, files[0]);
      SizeBound(boundary, fields, files[1..]);
      assert parts[1..] == Parts(fields, files[1..]);
      assert forall i :: 0 < i < |files| ==> files[i] == files[1..][i - 1];
      assert (forall i :: 0 <= i < |files| ==> FileWhole(files[i])) <==>
             FileWhole(files[0]) && forall i :: 0 <= i < |files[1..]| ==> FileWhole(files[1..][i]);
    }
  }

  // ----- Receiving -----

  /** FindSubstring from a position on. */
  function FindFrom(s: string, pattern: string, start: nat): (r: Option<nat>)
    requires pattern != ""
    ensures r.Some? ==> start <= r.value && r.value + |pattern| <= |s|
  {
    if start >= |s| then None
    else match Find(s[start..], pattern)
      case None => None
      case Some(i) => Some(start + i)
  }

  /** Past a line end, if there is one. */
  function SkipLineEnd(s: string, pos: nat): (r: nat)
    ensures pos <= r && (pos <= |s| ==> r <= |s|)
  {
    var p := if pos < |s| && s[pos] == '\r' then pos + 1 else pos;
    if p < |s| && s[p] == '\n' then p + 1 else p
  }

  /** Where a part ends, before the line end in front of the delimiter. */
  function PartEnd(s: string, next: nat): (e: nat)
    requires next <= |s|
    ensures e <= next
  {
    if next >= 2 && s[next - 2] == '\r' && s[next - 1] == '\n' then next - 2
    else if next >= 1 && s[next - 1] == '\n' then next - 1
    else next
  }

  /** substr(pos, end - pos): when the end lies before, the length wraps and everything is taken. */
  function Slice(s: string, pos: nat, end: nat): string
    requires pos <= |s| && end <= |s|
  {
    if end < pos then s[pos..] else s[pos..end]
  }

  /** Parse's loop: the parts handed to ParsePart. */
  function PartsFrom(body: string, delimiter: string, pos: nat): seq<string>
    requires delimiter != "" && pos <= |body|
    decreases |body| - pos
  {
    match FindFrom(body, delimiter, pos)
    case None => []
    case Some(next) =>
      var end := PartEnd(body, next);
      var part := Slice(body, pos, end);
      var here := if part != "" || pos != end then [part] else [];
      if StartsWith(body[next..], delimiter + "--") then here
      else here + PartsFrom(body, delimiter, SkipLineEnd(body, next + |delimiter|))
  }

  function PartsOf(body: string, delimiter: string): seq<string>
    requires delimiter != ""
  {
    match Find(body, delimiter)
    case None => []
    case Some(first) => PartsFrom(body, delimiter, SkipLineEnd(body, first + |delimiter|))
  }

  function TrimLeft(s: string): string
    decreases |s|
  {
    if |s| > 0 && IsSpace(s[0]) then TrimLeft(s[1..]) else s
  }

  function TrimRight(s: string): string
    decreases |s|
  {
    if |s| > 0 && IsSpace(s[|s| - 1]) then TrimRight(s[..|s| - 1]) else s
  }

  function Trim(s: string): string {
    TrimRight(TrimLeft(s))
  }

  function LowerChar(c: char): char {
    if 'A' <= c <= 'Z' then c - 'A' + 'a' else c
  }

  /** tolower in the C locale. */
  function Lower(s: string): (r: string)
    ensures |r| == |s| && forall i :: 0 <= i < |s| ==> r[i] == LowerChar(s[i])
  {
    seq(|s|, i requires 0 <= i < |s| => LowerChar(s[i]))
  }

  function NoReturn(line: string): string {
    if line != "" && line[|line| - 1] == '\r' then line[..|line| - 1] else line
  }

  /** One header line, its name in lower case. */
  function WithHeader(m: map<string, string>, line: string): map<string, string> {
    match Find(line, ":")
    case None => m
    case Some(colon) => m[Lower(Trim(line[..colon])) := Trim(line[colon + 1..])]
  }

  function Headers(m: map<string, string>, section: string): map<string, string>
    decreases |section|
  {
    if |section| == 0 then m
    else match Find(section, "\n")
      case None => WithHeader(m, NoReturn(section))
      case Some(end) => Headers(WithHeader(m, NoReturn(section[..end])), section[end + 1..])
  }

  /** ExtractParam. */
  function Param(value: string, name: string): string {
    match Find(Lower(value), Lower(name) + "=")
    case None => ""
    case Some(i) =>
      var start := i + |name| + 1;
      if start >= |value| then ""
      else if value[start] == '\"' then
        var rest := value[start + 1..];
        match Find(rest, "\"") case None => rest case Some(end) => rest[..end]
      else
        var rest := value[start..];
        Trim(match Find(rest, ";") case None => rest case Some(end) => rest[..end])
  }

  datatype Item = AField(field: Field) | AFile(file: File)

  /** The end of the headers and the start of the content. */
  function HeaderEnd(part: string): (r: Option<(nat, nat)>)
    ensures r.Some? ==> r.value.0 <= r.value.1 <= |part|
  {
    match (Find(part, BLANK_LINE), Find(part, "\n\n"))
    case (Some(c), Some(l)) => if c <= l then Some((c, c + 4)) else Some((l, l + 2))
    case (Some(c), None) => Some((c, c + 4))
    case (None, Some(l)) => Some((l, l + 2))
    case (None, None) => None
  }

  /** ParsePart: nothing for a part without headers, disposition or name. */
  function ReadPart(part: string): Option<Item> {
    match HeaderEnd(part)
    case None => None
    case Some((end, start)) =>
      var headers := Headers(map[], part[..end]);
      if "content-disposition" !in headers then None
      else
        var d := headers["content-disposition"];
        var name, filename := Param(d, "name"), Param(d, "filename");
        if name == "" then None
        else if filename != "" then
          Some(AFile(File(name, filename,
            if "content-type" in headers then headers["content-type"] else "application/octet-stream", part[start..])))
        else Some(AField(Field(name, part[start..])))
  }

  /** What Parse leaves in fields_ and files_. */
  datatype Parsed = Parsed(found: bool, fields: seq<Field>, files: seq<File>)

  function Added(p: Parsed, part: string): Parsed {
    match ReadPart(part)
    case None => p.(found := true)
    case Some(AField(f)) => Parsed(true, p.fields + [f], p.files)
    case Some(AFile(f)) => Parsed(true, p.fields, p.files + [f])
  }

  function AddedAll(p: Parsed, parts: seq<string>): Parsed
    decreases |parts|
  {
    if |parts| == 0 then p else AddedAll(Added(p, parts[0]), parts[1..])
  }

  /** MultipartParser::Parse. */
  function ParseBody(body: string, boundary: string): Parsed {
    if body == "" || boundary == "" then Parsed(false, [], [])
    else AddedAll(Parsed(false, [], []), PartsOf(body, "--" + boundary))
  }

  // ----- Cutting the body apart -----

  predicate NoLineEnd(s: string) {
    '\r' !in s && '\n' !in s
  }

  /** A delimiter after a line end is found there, if the text before has none in it. */
  lemma {:induction false} FindDelimiter(text: string, delimiter: string, rest: string)
    requires delimiter != "" && NoLineEnd(delimiter) && Find(text, delimiter) == None
    ensures Find(text + CRLF + delimiter + rest, delimiter) == Some(|text| + 2)
    decreases |text|
  {
    var s := text + CRLF + delimiter + rest;
    if |text| == 0 {
      assert s == CRLF + (delimiter + rest);
      assert StartsWith(delimiter + rest, delimiter);
      assert s[1..][1..] == delimiter + rest && s[1..][0] == '\n';
      FindAt(s, delimiter);
      FindAt(s[1..], delimiter);
    } else {
      assert s[1..] == text[1..] + CRLF + delimiter + rest;
      if StartsWith(s, delimiter) { NotSplit(text, delimiter, rest); }
      NoneAfter(text, delimiter);
      FindDelimiter(text[1..], delimiter, rest);
      FindNext(s, delimiter);
    }
  }

  lemma NoneAfter(text: string, pattern: string)
    requires pattern != "" && text != "" && Find(text, pattern) == None
    ensures Find(text[1..], pattern) == None && !StartsWith(text, pattern)
  {
  }

  /** A first character that is not the pattern's. */
  lemma FindAt(s: string, pattern: string)
    requires pattern != "" && s != "" && s[0] != pattern[0] && Find(s[1..], pattern).Some?
    ensures Find(s, pattern) == Some(Find(s[1..], pattern).value + 1)
  {
    StartsAt(s, pattern, 0);
    hide StartsWith;
    FindNext(s, pattern);
  }

  /** A delimiter at the front of a text before a line end lies within the text. */
  lemma NotSplit(text: string, delimiter: string, rest: string)
    requires delimiter != "" && NoLineEnd(delimiter) && text != "" && StartsWith(text + CRLF + delimiter + rest, delimiter)
    ensures StartsWith(text, delimiter)
  {
    var s := text + CRLF + delimiter + rest;
    StartsAt(s, delimiter, |text|);
    assert |delimiter| <= |text|;
    assert s[..|delimiter|] == text[..|delimiter|];
  }

  lemma StartsAt(s: string, pattern: string, k: nat)
    ensures StartsWith(s, pattern) && k < |pattern| ==> s[k] == pattern[k] && s[k] in pattern
  {
    assert StartsWith(s, pattern) && k < |pattern| ==> s[k] == s[..|pattern|][k];
  }

  /** A part that can be told from the delimiters around it. */
  predicate Clean(part: string, delimiter: string)
    requires delimiter != ""
  {
    part != "" && Find(part, delimiter) == None
  }

  lemma FindInSuffix(before: string, after: string, pattern: string)
    requires pattern != "" && after != ""
    ensures FindFrom(before + after, pattern, |before|) ==
            match Find(after, pattern) case None => None case Some(i) => Some(|before| + i)
  {
    assert (before + after)[|before|..] == after;
  }

  lemma JoinedBegins(delimiter: string, parts: seq<string>)
    ensures StartsWith(Joined(delimiter, parts), delimiter)
    ensures |parts| == 0 ==> StartsWith(Joined(delimiter, parts), delimiter + "--")
    ensures |parts| > 0 ==> !StartsWith(Joined(delimiter, parts), delimiter + "--")
  {
    var s := Joined(delimiter, parts);
    if |parts| > 0 {
      assert s[|delimiter|] == '\r' && (delimiter + "--")[|delimiter|] == '-';
      StartsAt(s, delimiter + "--", |delimiter|);
    }
  }

  /** One round of the loop, from the start of a part. */
  lemma PartRead(before: string, delimiter: string, part: string, tail: string)
    requires delimiter != "" && part != "" && StartsWith(tail, delimiter)
    requires Find(part + CRLF + tail, delimiter) == Some(|part| + 2)
    ensures var body, next := before + (part + CRLF + tail), |before| + |part| + 2;
      && next + |delimiter| <= |body|
      && PartsFrom(body, delimiter, |before|) ==
         if StartsWith(tail, delimiter + "--") then [part]
         else [part] + PartsFrom(body, delimiter, SkipLineEnd(body, next + |delimiter|))
  {
    hide *;
    PartFound(before, delimiter, part, tail);
    PartSliced(before, part, tail);
    PartsStep(before + (part + CRLF + tail), delimiter, |before|, |before| + |part| + 2, part);
  }

  lemma PartFound(before: string, delimiter: string, part: string, tail: string)
    requires delimiter != "" && StartsWith(tail, delimiter)
    requires Find(part + CRLF + tail, delimiter) == Some(|part| + 2)
    ensures var body, next := before + (part + CRLF + tail), |before| + |part| + 2;
      FindFrom(body, delimiter, |before|) == Some(next) && next + |delimiter| <= |body|
  {
    hide Find, FindFrom, StartsWith;
    StartsLength(tail, delimiter);
    FindInSuffix(before, part + CRLF + tail, delimiter);
  }

  lemma StartsLength(s: string, pattern: string)
    requires StartsWith(s, pattern)
    ensures |pattern| <= |s|
  {
  }

  lemma PartsStep(body: string, delimiter: string, pos: nat, next: nat, part: string)
    requires delimiter != "" && pos <= |body| && FindFrom(body, delimiter, pos) == Some(next)
    requires part != "" && Slice(body, pos, PartEnd(body, next)) == part
    ensures PartsFrom(body, delimiter, pos) ==
            if StartsWith(body[next..], delimiter + "--") then [part]
            else [part] + PartsFrom(body, delimiter, SkipLineEnd(body, next + |delimiter|))
  {
    hide FindFrom, StartsWith, SkipLineEnd, PartEnd, Slice;
  }

  lemma PartSliced(before: string, part: string, tail: string)
    ensures var body, next := before + (part + CRLF + tail), |before| + |part| + 2;
      PartEnd(body, next) == next - 2 && Slice(body, |before|, next - 2) == part && body[next..] == tail
  {
    var body, next := before + (part + CRLF + tail), |before| + |part| + 2;
    assert body[next - 2] == '\r' && body[next - 1] == '\n';
    assert body[next..] == tail;
    assert body[|before|..next - 2] == part;
  }

  /** The loop from the start of a part: that part, whole, and then the others. */
  lemma {:induction false} PartsRead(before: string, delimiter: string, parts: seq<string>)
    requires delimiter != "" && NoLineEnd(delimiter)
    requires |parts| > 0 && forall i :: 0 <= i < |parts| ==> Clean(parts[i], delimiter)
    ensures PartsFrom(before + (parts[0] + CRLF + Joined(delimiter, parts[1..])), delimiter, |before|) == parts
    decreases |parts|
  {
    var part, rest := parts[0], parts[1..];
    var tail := Joined(delimiter, rest);
    NextDelimiter(part, delimiter, rest);
    JoinedBegins(delimiter, rest);
    PartRead(before, delimiter, part, tail);
    if |parts| == 1 {
      assert parts == [part];
    } else {
      RestRead(before, delimiter, part, rest);
      PartsRead(before + part + CRLF + delimiter + CRLF, delimiter, rest);
      assert parts == [part] + rest;
    }
    hide Find, StartsWith, Joined, Clean, PartsFrom;
  }

  /** Where the next round starts. */
  lemma RestRead(before: string, delimiter: string, part: string, rest: seq<string>)
    requires |rest| > 0
    ensures var body := before + (part + CRLF + Joined(delimiter, rest));
      && body == before + part + CRLF + delimiter + CRLF + (rest[0] + CRLF + Joined(delimiter, rest[1..]))
      && |before| + |part| + 2 + |delimiter| <= |body|
      && SkipLineEnd(body, |before| + |part| + 2 + |delimiter|) == |before + part + CRLF + delimiter + CRLF|
  {
    JoinedStep(delimiter, rest);
    var next := rest[0] + CRLF + Joined(delimiter, rest[1..]);
    hide Joined;
    var body := before + (part + CRLF + (delimiter + CRLF + next));
    assert body == before + part + CRLF + delimiter + CRLF + next;
    SkipCRLF(body, |before| + |part| + 2 + |delimiter|);
  }

  lemma JoinedStep(delimiter: string, parts: seq<string>)
    requires |parts| > 0
    ensures Joined(delimiter, parts) == delimiter + CRLF + (parts[0] + CRLF + Joined(delimiter, parts[1..]))
  {
  }

  lemma NextDelimiter(part: string, delimiter: string, rest: seq<string>)
    requires delimiter != "" && NoLineEnd(delimiter) && Clean(part, delimiter)
    ensures Find(part + CRLF + Joined(delimiter, rest), delimiter) == Some(|part| + 2)
  {
    hide Find;
    var tail := Joined(delimiter, rest);
    var behind := tail[|delimiter|..];
    assert tail == delimiter + behind;
    assert part + CRLF + tail == part + CRLF + delimiter + behind;
    FindDelimiter(part, delimiter, behind);
  }

  lemma SkipCRLF(s: string, pos: nat)
    requires pos + 2 <= |s| && s[pos] == '\r' && s[pos + 1] == '\n'
    ensures SkipLineEnd(s, pos) == pos + 2
  {
  }

  /** The parser's loop over a body as sent finds exactly the parts that were joined. */
  lemma PartsOfJoined(delimiter: string, parts: seq<string>)
    requires |delimiter| > 4 && NoLineEnd(delimiter)
    requires forall i :: 0 <= i < |parts| ==> Clean(parts[i], delimiter)
    ensures PartsOf(Joined(delimiter, parts), delimiter) == parts
  {
    var body := Joined(delimiter, parts);
    JoinedBegins(delimiter, parts);
    assert Find(body, delimiter) == Some(0);
    if |parts| == 0 {
      assert body[|delimiter|] == '-';
      assert |body[|delimiter|..]| == 4;
    } else {
      JoinedStep(delimiter, parts);
      SkipCRLF(body, |delimiter|);
      PartsRead(delimiter + CRLF, delimiter, parts);
      assert body == delimiter + CRLF + (parts[0] + CRLF + Joined(delimiter, parts[1..]));
    }
    hide Find, Joined;
  }

  // ----- Reading a part -----

  /** A character the pattern does not have separates what is searched. */
  lemma {:induction false} FindAcross(text: string, c: char, rest: string, pattern: string)
    requires pattern != "" && c !in pattern && Find(text, pattern) == None
    ensures Find(text + [c] + rest, pattern) ==
            match Find(rest, pattern) case None => None case Some(i) => Some(|text| + 1 + i)
    decreases |text|
  {
    var s := text + [c] + rest;
    StartsAt(s, pattern, |text|);
    if |text| == 0 {
      assert s[1..] == rest;
      ShortNone(s, pattern);
    } else {
      assert s[1..] == text[1..] + [c] + rest;
      NoneAfter(text, pattern);
      if |pattern| <= |text| { assert s[..|pattern|] == text[..|pattern|]; }
      FindAcross(text[1..], c, rest, pattern);
      ShortNone(s, pattern);
    }
    hide Find;
  }

  /** Where the pattern does not begin, the search goes on. */
  lemma ShortNone(s: string, pattern: string)
    requires pattern != "" && s != "" && !StartsWith(s, pattern)
    ensures Find(s, pattern) == match Find(s[1..], pattern) case None => None case Some(i) => Some(i + 1)
  {
    hide StartsWith;
    if |s| <= |pattern| { TooShort(s[1..], pattern); }
  }

  lemma TooShort(s: string, pattern: string)
    requires |s| < |pattern|
    ensures Find(s, pattern) == None
  {
  }

  /** Text without the pattern's first character is passed over. */
  lemma {:induction false} FindPast(text: string, rest: string, pattern: string)
    requires pattern != "" && pattern[0] !in text
    ensures Find(text + rest, pattern) == match Find(rest, pattern) case None => None case Some(i) => Some(|text| + i)
    decreases |text|
  {
    var s := text + rest;
    if |text| == 0 {
      assert s == rest;
    } else {
      StartsAt(s, pattern, 0);
      assert s[0] == text[0] && s[1..] == text[1..] + rest;
      FindPast(text[1..], rest, pattern);
      ShortNone(s, pattern);
    }
    hide Find;
  }

  lemma FindFront(rest: string, pattern: string)
    requires pattern != ""
    ensures Find(pattern + rest, pattern) == Some(0)
  {
    assert (pattern + rest)[..|pattern|] == pattern;
  }

  lemma NotFound(text: string, pattern: string)
    requires pattern != "" && pattern[0] !in text
    ensures Find(text, pattern) == None
  {
    assert text + "" == text;
    FindPast(text, "", pattern);
  }

  lemma LowerConcat(a: string, b: string)
    ensures Lower(a + b) == Lower(a) + Lower(b)
  {
  }

  predicate NoCapitals(s: string) {
    forall c :: c in s ==> !('A' <= c <= 'Z')
  }

  lemma LowerSame(s: string)
    requires NoCapitals(s)
    ensures Lower(s) == s
  {
    assert forall i :: 0 <= i < |s| ==> s[i] in s;
  }

  /** Quoted text: no quote, line end or NUL in it. */
  predicate Quotable(s: string) {
    s != "" && '\"' !in s && NoLineEnd(s) && CStr(s) == s
  }

  const FORM_DATA := "form-data; name=\""

  lemma LowerForm(name: string, tail: string)
    ensures Lower(FORM_DATA + name + "\"" + tail) == FORM_DATA + Lower(name) + "\"" + Lower(tail)
  {
    LowerConcat(FORM_DATA + name + "\"", tail);
    LowerConcat(FORM_DATA + name, "\"");
    LowerConcat(FORM_DATA, name);
    LowerSame(FORM_DATA);
    LowerSame("\"");
    hide Lower;
  }

  lemma QuotedRead(before: string, text: string, rest: string)
    requires '\"' !in text
    ensures Find((before + text + "\"" + rest)[|before|..], "\"") == Some(|text|)
    ensures (before + text + "\"" + rest)[|before|..][..|text|] == text
  {
    assert (before + text + "\"" + rest)[|before|..] == text + ("\"" + rest);
    FindFront(rest, "\"");
    FindPast(text, "\"" + rest, "\"");
    hide Find;
  }

  /** The name parameter of a disposition. */
  lemma NameRead(name: string, tail: string)
    requires '\"' !in name
    ensures Param(FORM_DATA + name + "\"" + tail, "name") == name
  {
    var v := FORM_DATA + name + "\"" + tail;
    LowerForm(name, tail);
    LowerSame("name");
    hide Lower;
    var l := "\"" + Lower(name) + "\"" + Lower(tail);
    assert FORM_DATA == "form-data; " + ("name=" + "\"");
    assert FORM_DATA + Lower(name) + "\"" + Lower(tail) == "form-data; " + ("name=" + l);
    FindPast("form-data; ", "name=" + l, "name=");
    FindFront(l, "name=");
    QuotedRead(FORM_DATA, name, tail);
    hide Find, Lower;
    assert "name" + "=" == "name=";
    assert v[16] == '\"' && v[16 + 1..] == v[|FORM_DATA|..];
  }

  /** The search for a file name passes over the form's name. */
  lemma FilenameSearch(name: string, tail: string)
    requires Find(Lower(name), "filename=") == None
    ensures Find(Lower(FORM_DATA + name + "\"" + tail), Lower("filename") + "=") ==
            match Find(Lower(tail), "filename=") case None => None case Some(i) => Some(|FORM_DATA| + |name| + 1 + i)
  {
    hide *;
    FilenamePattern();
    LowerForm(name, tail);
    var rest := Lower(name) + ['\"'] + Lower(tail);
    FormPassed(rest);
    FindAcross(Lower(name), '\"', Lower(tail), "filename=");
    assert FORM_DATA + Lower(name) + "\"" + Lower(tail) == FORM_DATA + rest;
  }

  lemma FilenamePattern()
    ensures Lower("filename") + "=" == "filename=" && '\"' !in "filename="
  {
    LowerSame("filename");
  }

  lemma FormPassed(rest: string)
    ensures Find(FORM_DATA + rest, "filename=") == match Find(rest, "filename=") case None => None case Some(i) => Some(|FORM_DATA| + i)
  {
    hide Find;
    TooShort(" name=", "filename=");
    FindAcross(" name=", '\"', rest, "filename=");
    assert "form-data"[1] == 'o' && "filename="[1] == 'i';
    StartsAt("form-data", "filename=", 1);
    TooShort("form-data"[1..], "filename=");
    ShortNone("form-data", "filename=");
    FindAcross("form-data", ';', " name=" + ['\"'] + rest, "filename=");
    assert FORM_DATA + rest == "form-data" + [';'] + (" name=" + ['\"'] + rest);
  }

  /** The file name parameter: none for a field, the file's own name for a file. */
  lemma FilenameRead(name: string, filename: string)
    requires Find(Lower(name), "filename=") == None && '\"' !in filename
    ensures Param(FORM_DATA + name + "\"", "filename") == ""
    ensures Param(FORM_DATA + name + FILENAME_IS + filename + "\"", "filename") == filename
  {
    hide *;
    NoFilename(name);
    var tail := "; filename=\"" + filename + "\"";
    FilenameSearch(name, tail);
    FilenameTail(filename);
    var before := FORM_DATA + name + FILENAME_IS;
    QuotedRead(before, filename, "");
    var v := before + filename + "\"";
    FilenameSplit(name, filename);
    assert v == before + filename + "\"" + "";
    ParamRead(v, "filename", |FORM_DATA| + |name| + 3, filename);
  }

  lemma FilenameSplit(name: string, filename: string)
    ensures FORM_DATA + name + FILENAME_IS + filename + "\"" == FORM_DATA + name + "\"" + ("; filename=\"" + filename + "\"")
    ensures |FORM_DATA + name + FILENAME_IS| == |FORM_DATA| + |name| + 3 + |"filename"| + 2
    ensures (FORM_DATA + name + FILENAME_IS)[|FORM_DATA| + |name| + 3 + |"filename"| + 1] == '\"'
  {
    assert FILENAME_IS == "\"" + "; filename=\"";
  }

  lemma NoFilename(name: string)
    requires Find(Lower(name), "filename=") == None
    ensures Param(FORM_DATA + name + "\"", "filename") == ""
  {
    FilenameSearch(name, "");
    assert FORM_DATA + name + "\"" + "" == FORM_DATA + name + "\"";
    TooShort(Lower(""), "filename=");
    hide Find, Lower;
  }

  /** A quoted parameter. */
  lemma ParamRead(v: string, name: string, i: nat, text: string)
    requires Find(Lower(v), Lower(name) + "=") == Some(i) && i + |name| + 1 < |v| && v[i + |name| + 1] == '\"'
    requires Find(v[i + |name| + 2..], "\"") == Some(|text|) && v[i + |name| + 2..][..|text|] == text
    ensures Param(v, name) == text
  {
    hide Find, Lower;
  }

  lemma FilenameTail(filename: string)
    ensures Find(Lower("; filename=\"" + filename + "\""), "filename=") == Some(2)
  {
    var q := "\"" + filename + "\"";
    assert "; filename=\"" + filename + "\"" == "; filename=" + q;
    LowerConcat("; filename=", q);
    LowerSame("; filename=");
    hide Lower;
    assert "; filename=" + Lower(q) == "; " + ("filename=" + Lower(q));
    FindFront(Lower(q), "filename=");
    FindPast("; ", "filename=" + Lower(q), "filename=");
    hide Find;
  }

  // ----- Header lines -----

  /** A line with its name and its value. */
  lemma HeaderRead(m: map<string, string>, name: string, value: string)
    requires ':' !in name && Trim(name) == name
    ensures WithHeader(m, name + ": " + value) == m[Lower(name) := Trim(" " + value)]
  {
    var line := name + ": " + value;
    assert line == name + (":" + (" " + value));
    FindFront(" " + value, ":");
    FindPast(name, ":" + (" " + value), ":");
    assert line[..|name|] == name && line[|name| + 1..] == " " + value;
    hide Find, Lower, Trim;
  }

  lemma TrimNothing(s: string)
    requires s != "" && !IsSpace(s[0]) && !IsSpace(s[|s| - 1])
    ensures Trim(s) == s && Trim(" " + s) == s
  {
    assert (" " + s)[1..] == s;
    assert TrimLeft(" " + s) == TrimLeft(s);
  }

  lemma LowerContent(x: string, y: string)
    requires Lower(x) == y
    ensures Lower("Content-" + x) == "content-" + y
  {
    LowerConcat("Content-", x);
    LowerConcat("C", "ontent-");
    LowerSame("ontent-");
    assert Lower("C") == "c";
    hide Lower;
    assert "Content-" == "C" + "ontent-" && "c" + "ontent-" == "content-";
  }

  lemma PlainNames()
    ensures ':' !in "Content-Disposition" && Trim("Content-Disposition") == "Content-Disposition"
    ensures ':' !in "Content-Type" && Trim("Content-Type") == "Content-Type"
  {
    TrimNothing("Content-Disposition");
    TrimNothing("Content-Type");
    hide Trim;
  }

  lemma Capitalised(c: char, rest: string)
    requires NoCapitals(rest)
    ensures Lower([c] + rest) == [LowerChar(c)] + rest
  {
    LowerConcat([c], rest);
    LowerSame(rest);
    assert Lower([c]) == [LowerChar(c)];
  }

  lemma Spelled()
    ensures "Content-" + (['D'] + "isposition") == "Content-Disposition" && "content-" + (['d'] + "isposition") == "content-disposition"
    ensures "Content-" + (['T'] + "ype") == "Content-Type" && "content-" + (['t'] + "ype") == "content-type"
  {
  }

  lemma DispositionName()
    ensures Lower("Content-Disposition") == "content-disposition"
  {
    Capitalised('D', "isposition");
    hide Lower, NoCapitals;
    LowerContent(['D'] + "isposition", ['d'] + "isposition");
    Spelled();
  }

  lemma TypeName()
    ensures Lower("Content-Type") == "content-type"
  {
    Capitalised('T', "ype");
    hide Lower, NoCapitals;
    LowerContent(['T'] + "ype", ['t'] + "ype");
    Spelled();
  }

  /** The disposition line, whatever it says, as long as it stays on its line. */
  lemma DispositionRead(m: map<string, string>, v: string)
    requires v != "" && !IsSpace(v[0]) && !IsSpace(v[|v| - 1])
    ensures WithHeader(m, "Content-Disposition: " + v) == m["content-disposition" := v]
  {
    DispositionName();
    PlainNames();
    TrimNothing(v);
    hide Find, Lower, Trim;
    assert "Content-Disposition: " == "Content-Disposition" + ": ";
    HeaderRead(m, "Content-Disposition", v);
  }

  lemma TypeRead(m: map<string, string>, contentType: string)
    requires Trim(contentType) == contentType
    ensures WithHeader(m, TYPE_IS + contentType) == m["content-type" := contentType]
  {
    TypeName();
    PlainNames();
    assert (" " + contentType)[1..] == contentType && TrimLeft(" " + contentType) == TrimLeft(contentType);
    assert Trim(" " + contentType) == Trim(contentType);
    hide Find, Lower, Trim;
    assert TYPE_IS == "Content-Type" + ": ";
    HeaderRead(m, "Content-Type", contentType);
  }

  /** One header line. */
  lemma OneLine(m: map<string, string>, line: string)
    requires NoLineEnd(line) && line != ""
    ensures Headers(m, line) == WithHeader(m, line)
  {
    NotFound(line, "\n");
    assert line[|line| - 1] in line;
    hide Find, WithHeader;
  }

  lemma TwoLines(m: map<string, string>, first: string, second: string)
    requires NoLineEnd(first) && NoLineEnd(second) && second != ""
    ensures Headers(m, first + CRLF + second) == WithHeader(WithHeader(m, first), second)
  {
    var s := first + CRLF + second;
    assert s == first + "\r" + ("\n" + second);
    FindFront(second, "\n");
    FindPast(first + "\r", "\n" + second, "\n");
    assert s[..|first| + 1] == first + "\r" && s[|first| + 2..] == second;
    assert NoReturn(first + "\r") == first;
    OneLine(WithHeader(m, first), second);
    hide Find, WithHeader;
  }

  /** Where the headers of a part end. */
  lemma HeaderEndIs(lines: seq<string>, content: string)
    requires |lines| > 0 && forall i :: 0 <= i < |lines| ==> LineOk(lines[i]) && NoLineEnd(lines[i])
    ensures HeaderEnd(Lines(lines) + CRLF + content) == Some((|Lines(lines)| - 2, |Lines(lines)| + 2))
  {
    var part := Lines(lines) + CRLF + content;
    FindTrailerEnd(lines, content);
    if Find(part, "\n\n").Some? {
      var l := Find(part, "\n\n").value;
      FindSound(part, "\n\n");
      assert part[l..l + 2][0] == '\n' && part[l..l + 2][1] == '\n';
      assert part[l] == '\n' && part[l + 1] == '\n';
      NoDoubleLineEnd(lines, CRLF + content, l);
    }
    hide Find, Lines;
  }

  /** No line end directly follows another among non-empty lines. */
  lemma {:induction false} NoDoubleLineEnd(lines: seq<string>, rest: string, l: nat)
    requires forall i :: 0 <= i < |lines| ==> LineOk(lines[i]) && NoLineEnd(lines[i])
    requires rest != "" && rest[0] == '\r' && l + 1 < |Lines(lines) + rest|
    requires (Lines(lines) + rest)[l] == '\n' && (Lines(lines) + rest)[l + 1] == '\n'
    ensures l >= |Lines(lines)|
    decreases |lines|
  {
    if |lines| > 0 {
      var line, s := lines[0], Lines(lines) + rest;
      var tail := Lines(lines[1..]) + rest;
      assert s == line + CRLF + tail;
      assert forall i :: 0 <= i < |line| ==> s[i] == line[i] && s[i] in line;
      assert s[|line|] == '\r' && s[|line| + 1] == '\n' && s[|line| + 2] == tail[0];
      TailBegins(lines[1..], rest);
      if l > |line| + 1 {
        assert tail[l - |line| - 2] == s[l] && tail[l - |line| - 1] == s[l + 1];
        NoDoubleLineEnd(lines[1..], rest, l - |line| - 2);
      }
    }
  }

  lemma TailBegins(lines: seq<string>, rest: string)
    requires forall i :: 0 <= i < |lines| ==> LineOk(lines[i]) && NoLineEnd(lines[i])
    requires rest != "" && rest[0] == '\r'
    ensures Lines(lines) + rest != "" && (Lines(lines) + rest)[0] != '\n'
  {
    if |lines| > 0 { assert (Lines(lines) + rest)[0] == lines[0][0] && lines[0][0] in lines[0]; }
  }

  // ----- The round trip -----

  predicate FieldOk(f: Field) {
    Quotable(f.name) && Find(Lower(f.name), "filename=") == None && FieldWhole(f)
  }

  predicate FileOk(f: File) {
    && Quotable(f.fieldName) && Find(Lower(f.fieldName), "filename=") == None && Quotable(f.filename)
    && NoLineEnd(f.contentType) && Trim(f.contentType) == f.contentType && FileWhole(f)
  }

  /** A field's part reads as that field. */
  lemma FieldReads(f: Field)
    requires FieldOk(f)
    ensures ReadPart(FieldPart(f)) == Some(AField(f))
  {
    var v := FORM_DATA + f.name + "\"";
    var d := "Content-Disposition: " + v;
    FieldLine(f);
    hide Find, Lower, Param, Headers, HeaderEnd, Lines, Quotable, Printed;
    HeaderEndIs([d], f.value);
    OneLine(map[], d);
    DispositionRead(map[], v);
    NameRead(f.name, "");
    assert FORM_DATA + f.name + "\"" + "" == v;
    NoFilename(f.name);
    OneLineText(d, f.value);
  }

  lemma PlainConcat(a: string, b: string)
    requires NoLineEnd(a) && NoLineEnd(b)
    ensures NoLineEnd(a + b)
  {
  }

  lemma PlainPrefixes()
    ensures NAME_IS == "Content-Disposition: " + FORM_DATA && |NAME_IS| == 38 && |FILENAME_IS| == 13
    ensures NoLineEnd(FILENAME_IS) && NoLineEnd("\"") && TYPE_IS != ""
    ensures NoLineEnd(NAME_IS) && NoLineEnd(TYPE_IS)
  {
    PlainStart();
    PlainConcat("Content-Disposition: ", FORM_DATA);
    PlainRest();
    hide NoLineEnd;
  }

  lemma PlainStart()
    ensures NoLineEnd("Content-Disposition: ")
  {
  }

  lemma PlainRest()
    ensures NoLineEnd(FORM_DATA) && NoLineEnd(FILENAME_IS) && NoLineEnd(TYPE_IS) && NoLineEnd("\"")
  {
  }

  lemma FieldLine(f: Field)
    requires FieldOk(f)
    ensures var d := "Content-Disposition: " + (FORM_DATA + f.name + "\"");
      FieldPart(f) == Lines([d]) + CRLF + f.value && NoLineEnd(d) && LineOk(d) && '\"' !in f.name && f.name != ""
  {
    hide Find, Lower, Lines, NAME_IS, FORM_DATA;
    var d := "Content-Disposition: " + (FORM_DATA + f.name + "\"");
    PlainPrefixes();
    PlainConcat(NAME_IS, f.name);
    PlainConcat(NAME_IS + f.name, "\"");
    assert "Content-Disposition: " + FORM_DATA + f.name + "\"" == d;
    assert FieldDisposition(f) == d;
  }

  lemma OneLineText(d: string, content: string)
    ensures |Lines([d])| == |d| + 2
    ensures (Lines([d]) + CRLF + content)[..|d|] == d && (Lines([d]) + CRLF + content)[|d| + 4..] == content
  {
    assert Lines([d]) == d + CRLF + Lines([]);
  }

  lemma TwoLinesText(d: string, t: string, content: string)
    ensures |Lines([d, t])| == |d| + 2 + |t| + 2
    ensures var part, n := Lines([d, t]) + CRLF + content, |d| + 2 + |t|;
      part[..n] == d + CRLF + t && part[n + 4..] == content
  {
    assert [d, t][1..] == [t] && Lines([t]) == t + CRLF + Lines([]);
    assert Lines([d, t]) == d + CRLF + (t + CRLF);
  }

  /** A file's part reads as that file. */
  lemma FileReads(f: File)
    requires FileOk(f)
    ensures ReadPart(FilePart(f)) == Some(AFile(f))
  {
    var v := FORM_DATA + f.fieldName + FILENAME_IS + f.filename + "\"";
    var d, t := "Content-Disposition: " + v, TYPE_IS + f.contentType;
    hide *;
    FileLines(f);
    FileValue(f);
    FileHeaders(f, v, d, t);
    FileParams(f);
    HeaderEndIs([d, t], f.content);
    TwoLinesText(d, t, f.content);
    FileFrom(FilePart(f), v, f, |d| + 2 + |t|);
  }

  lemma FileValue(f: File)
    requires FileOk(f)
    ensures var v := FORM_DATA + f.fieldName + FILENAME_IS + f.filename + "\"";
      v[0] == 'f' && v[|v| - 1] == '\"' && Trim(f.contentType) == f.contentType
  {
    hide Trim, Find, Lower, Quotable;
  }

  lemma FileHeaders(f: File, v: string, d: string, t: string)
    requires Trim(f.contentType) == f.contentType && d == "Content-Disposition: " + v && t == TYPE_IS + f.contentType
    requires NoLineEnd(d) && NoLineEnd(t) && v != "" && v[0] == 'f' && v[|v| - 1] == '\"'
    ensures Headers(map[], d + CRLF + t) == map["content-disposition" := v, "content-type" := f.contentType]
  {
    hide Headers, Trim, NoLineEnd, WithHeader;
    assert |t| >= |TYPE_IS| > 0;
    TwoLines(map[], d, t);
    DispositionRead(map[], v);
    TypeRead(map["content-disposition" := v], f.contentType);
  }

  /** A file from its headers and its content. */
  lemma FileFrom(part: string, v: string, f: File, n: nat)
    requires HeaderEnd(part) == Some((n, n + 4)) && part[n + 4..] == f.content
    requires Headers(map[], part[..n]) == map["content-disposition" := v, "content-type" := f.contentType]
    requires Param(v, "name") == f.fieldName && Param(v, "filename") == f.filename && f.fieldName != "" && f.filename != ""
    ensures ReadPart(part) == Some(AFile(f))
  {
    hide HeaderEnd, Headers, Param;
  }

  lemma FileParams(f: File)
    requires FileOk(f)
    ensures var v := FORM_DATA + f.fieldName + FILENAME_IS + f.filename + "\"";
      Param(v, "name") == f.fieldName && Param(v, "filename") == f.filename
  {
    FilenameSplit(f.fieldName, f.filename);
    NameRead(f.fieldName, "; filename=\"" + f.filename + "\"");
    FilenameRead(f.fieldName, f.filename);
    hide Find, Lower, Param;
  }

  lemma FileLines(f: File)
    requires FileOk(f)
    ensures var d, t := "Content-Disposition: " + (FORM_DATA + f.fieldName + FILENAME_IS + f.filename + "\""), TYPE_IS + f.contentType;
      && FilePart(f) == Lines([d, t]) + CRLF + f.content
      && NoLineEnd(d) && LineOk(d) && NoLineEnd(t) && LineOk(t) && f.fieldName != "" && f.filename != ""
  {
    hide Find, Lower, Lines, Trim, NAME_IS, FORM_DATA, FILENAME_IS, TYPE_IS;
    var d := "Content-Disposition: " + (FORM_DATA + f.fieldName + FILENAME_IS + f.filename + "\"");
    PlainPrefixes();
    PlainConcat(NAME_IS, f.fieldName);
    PlainConcat(NAME_IS + f.fieldName, FILENAME_IS);
    PlainConcat(NAME_IS + f.fieldName + FILENAME_IS, f.filename);
    PlainConcat(NAME_IS + f.fieldName + FILENAME_IS + f.filename, "\"");
    PlainConcat(TYPE_IS, f.contentType);
    assert "Content-Disposition: " + FORM_DATA + f.fieldName + FILENAME_IS + f.filename + "\"" == d;
    assert FileDisposition(f) == d;
  }

  lemma {:induction false} AllRead(p: Parsed, fields: seq<Field>, files: seq<File>)
    requires forall i :: 0 <= i < |fields| ==> FieldOk(fields[i])
    requires forall i :: 0 <= i < |files| ==> FileOk(files[i])
    ensures AddedAll(p, Parts(fields, files)) ==
            Parsed(p.found || |fields| + |files| > 0, p.fields + fields, p.files + files)
    decreases |fields| + |files|
  {
    hide FieldOk, FileOk, ReadPart, FieldPart, FilePart;
    var parts := Parts(fields, files);
    if |fields| > 0 {
      FieldReads(fields[0]);
      assert parts[1..] == Parts(fields[1..], files);
      AllRead(Added(p, parts[0]), fields[1..], files);
      assert p.fields + [fields[0]] + fields[1..] == p.fields + fields;
    } else if |files| > 0 {
      FileReads(files[0]);
      assert parts[1..] == Parts(fields, files[1..]);
      AllRead(Added(p, parts[0]), fields, files[1..]);
      assert p.files + [files[0]] + files[1..] == p.files + files;
    } else {
      assert p.fields + fields == p.fields && p.files + files == p.files;
    }
  }

  /** What the client sends, the server reads: the same fields and files, in the same order. */
  lemma RoundTrip(boundary: string, fields: seq<Field>, files: seq<File>)
    requires |boundary| > 2 && NoLineEnd(boundary)
    requires forall i :: 0 <= i < |fields| ==> FieldOk(fields[i])
    requires forall i :: 0 <= i < |files| ==> FileOk(files[i])
    requires forall part :: part in Parts(fields, files) ==> Find(part, "--" + boundary) == None
    ensures ParseBody(Body(boundary, fields, files), boundary) == Parsed(|fields| + |files| > 0, fields, files)
  {
    hide *;
    var delimiter, parts := "--" + boundary, Parts(fields, files);
    AllClean(delimiter, fields, files);
    DelimiterOk(boundary);
    PartsOfJoined(delimiter, parts);
    AllRead(Parsed(false, [], []), fields, files);
    ParseIs(boundary, fields, files);
    assert [] + fields == fields && [] + files == files;
  }

  lemma DelimiterOk(boundary: string)
    requires |boundary| > 2 && NoLineEnd(boundary)
    ensures |"--" + boundary| > 4 && NoLineEnd("--" + boundary) && boundary != ""
  {
  }

  lemma ParseIs(boundary: string, fields: seq<Field>, files: seq<File>)
    requires boundary != ""
    ensures ParseBody(Body(boundary, fields, files), boundary) ==
            AddedAll(Parsed(false, [], []), PartsOf(Joined("--" + boundary, Parts(fields, files)), "--" + boundary))
  {
    JoinedBegins("--" + boundary, Parts(fields, files));
    hide Joined, Parts, PartsOf, AddedAll;
  }

  lemma AllClean(delimiter: string, fields: seq<Field>, files: seq<File>)
    requires delimiter != "" && forall part :: part in Parts(fields, files) ==> Find(part, delimiter) == None
    ensures var parts := Parts(fields, files); forall i :: 0 <= i < |parts| ==> Clean(parts[i], delimiter)
  {
    hide Find;
    var parts := Parts(fields, files);
    forall i | 0 <= i < |parts| ensures Clean(parts[i], delimiter) {
      assert parts[i] in parts;
      PartNotEmpty(fields, files, i);
    }
  }

  lemma PartNotEmpty(fields: seq<Field>, files: seq<File>, i: nat)
    requires i < |Parts(fields, files)|
    ensures Parts(fields, files)[i] != ""
  {
    var part := Parts(fields, files)[i];
    if i < |fields| { assert |FieldPart(fields[i])| >= 2; } else { assert |FilePart(files[i - |fields|])| >= 2; }
  }

  /** Where one delimiter directly follows another, the part between them has a negative length:
      everything from there on is taken for a part. */
  lemma EmptyPartTakesRest(delimiter: string, rest: string)
    requires delimiter != "" && NoLineEnd(delimiter)
    ensures var parts := PartsOf(delimiter + CRLF + delimiter + rest, delimiter);
      |parts| > 0 && parts[0] == delimiter + rest
  {
    var body, pos := delimiter + CRLF + delimiter + rest, |delimiter| + 2;
    assert body == delimiter + (CRLF + delimiter + rest);
    FindFront(CRLF + delimiter + rest, delimiter);
    SkipCRLF(body, |delimiter|);
    assert body == delimiter + CRLF + (delimiter + rest);
    FindFront(rest, delimiter);
    FindInSuffix(delimiter + CRLF, delimiter + rest, delimiter);
    assert body[pos - 2] == '\r' && body[pos - 1] == '\n';
    assert body[pos..] == delimiter + rest;
    hide Find, FindFrom;
    FirstPart(body, delimiter, pos, delimiter + rest);
  }

  lemma FirstPart(body: string, delimiter: string, pos: nat, part: string)
    requires delimiter != "" && pos <= |body| && FindFrom(body, delimiter, pos) == Some(pos)
    requires PartEnd(body, pos) < pos && body[pos..] == part
    ensures |PartsFrom(body, delimiter, pos)| > 0 && PartsFrom(body, delimiter, pos)[0] == part
  {
    hide FindFrom, StartsWith, SkipLineEnd, PartEnd;
  }

  // ----- The code as it runs -----

  /** SendMultipartBody: everything sent, part after part. */
  method SendMultipartBody(boundary: string, fields: seq<Field>, files: seq<File>) returns (sent: string)
    ensures sent == Body(boundary, fields, files)
  {
    hide FieldPart, FilePart;
    ghost var delimiter, parts := "--" + boundary, Parts(fields, files);
    sent := "";
    assert parts[0..] == parts;
    for i := 0 to |fields|
      invariant sent + Joined(delimiter, parts[i..]) == Joined(delimiter, parts)
    {
      var part := "--" + boundary + CRLF;
      part := part + FieldPart(fields[i]) + CRLF;
      PartSent(sent, delimiter, parts[i..]);
      assert parts[i..][1..] == parts[i + 1..];
      sent := sent + part;
    }
    for i := 0 to |files|
      invariant sent + Joined(delimiter, parts[|fields| + i..]) == Joined(delimiter, parts)
    {
      var part := "--" + boundary + CRLF;
      part := part + FilePart(files[i]) + CRLF;
      PartSent(sent, delimiter, parts[|fields| + i..]);
      assert parts[|fields| + i..][1..] == parts[|fields| + i + 1..];
      sent := sent + part;
    }
    assert parts[|fields| + |files|..] == [];
    sent := sent + ("--" + boundary + "--" + CRLF);
  }

  lemma PartSent(sent: string, delimiter: string, parts: seq<string>)
    requires |parts| > 0
    ensures sent + Joined(delimiter, parts) == sent + (delimiter + CRLF + parts[0] + CRLF) + Joined(delimiter, parts[1..])
  {
  }

  class MultipartParser {
    const body: string
    const boundary: string
    var fields: seq<Field>
    var files: seq<File>

    constructor (body: string, boundary: string)
      ensures this.body == body && this.boundary == boundary && fields == [] && files == []
    {
      this.body, this.boundary, fields, files := body, boundary, [], [];
    }

    /** The loop over the header lines. */
    method ReadHeaders(section: string) returns (headers: map<string, string>)
      ensures headers == Headers(map[], section)
    {
      hide Find, WithHeader, Headers;
      headers := map[];
      assert section[0..] == section;
      var lineStart := 0;
      while lineStart < |section|
        invariant lineStart <= |section| + 1
        invariant Headers(map[], section) == if lineStart <= |section| then Headers(headers, section[lineStart..]) else headers
        decreases |section| + 1 - lineStart
      {
        var rest := section[lineStart..];
        var lineEnd := |section|;
        match Find(rest, "\n") {
          case Some(i) => lineEnd := lineStart + i;
          case None =>
        }
        var line := section[lineStart..lineEnd];
        HeadersStep(headers, rest);
        assert line == rest[..lineEnd - lineStart] && rest[..|rest|] == rest;
        assert lineEnd < |section| ==> section[lineEnd + 1..] == rest[lineEnd - lineStart + 1..];
        headers := WithHeader(headers, NoReturn(line));
        lineStart := lineEnd + 1;
      }
      assert lineStart <= |section| ==> section[lineStart..] == "";
      HeadersEnd(headers);
    }

    method ParsePart(part: string) returns (ok: bool)
      modifies `fields, `files
      ensures Parsed(true, fields, files) == Added(Parsed(true, old(fields), old(files)), part)
      ensures ok == ReadPart(part).Some?
    {
      hide Headers, HeaderEnd, Param;
      var split := HeaderEnd(part);
      if split == None { return false; }
      var (headerEnd, bodyStart) := split.value;
      var headers := ReadHeaders(part[..headerEnd]);
      if "content-disposition" !in headers { return false; }
      var d := headers["content-disposition"];
      var name, filename := Param(d, "name"), Param(d, "filename");
      if name == "" { return false; }
      if filename != "" {
        var contentType := if "content-type" in headers then headers["content-type"] else "application/octet-stream";
        files := files + [File(name, filename, contentType, part[bodyStart..])];
      } else {
        fields := fields + [Field(name, part[bodyStart..])];
      }
      ok := true;
    }

    /** Parse, on a new parser. */
    method Parse() returns (found: bool)
      requires fields == [] && files == []
      modifies `fields, `files
      ensures Parsed(found, fields, files) == ParseBody(body, boundary)
    {
      hide Find, FindFrom, Added, SkipLineEnd, PartEnd, StartsWith;
      found := false;
      if body == "" || boundary == "" { return; }
      var delimiter := "--" + boundary;
      var first := Find(body, delimiter);
      if first.None? { return; }
      var pos := SkipLineEnd(body, first.value + |delimiter|);
      ghost var goal := ParseBody(body, boundary);
      while true
        invariant pos <= |body|
        invariant AddedAll(Parsed(found, fields, files), PartsFrom(body, delimiter, pos)) == goal
        decreases |body| - pos
      {
        var next := FindFrom(body, delimiter, pos);
        if next.None? { return; }
        var end := PartEnd(body, next.value);
        var part := Slice(body, pos, end);
        var last := StartsWith(body[next.value..], delimiter + "--");
        ghost var rest := if last then [] else PartsFrom(body, delimiter, SkipLineEnd(body, next.value + |delimiter|));
        if part != "" || pos != end {
          PartAdded(Parsed(found, fields, files), part, rest);
          AddedFound(Parsed(found, fields, files), part);
          var ok := ParsePart(part);
          found := true;
        } else {
          assert [] + rest == rest;
        }
        if last { return; }
        pos := SkipLineEnd(body, next.value + |delimiter|);
      }
    }
  }

  lemma HeadersStep(m: map<string, string>, rest: string)
    requires rest != ""
    ensures Headers(m, rest) == match Find(rest, "\n")
      case None => WithHeader(m, NoReturn(rest))
      case Some(end) => Headers(WithHeader(m, NoReturn(rest[..end])), rest[end + 1..])
  {
    hide Find, WithHeader;
  }

  lemma HeadersEnd(m: map<string, string>)
    ensures Headers(m, "") == m
  {
  }

  lemma PartAdded(p: Parsed, part: string, rest: seq<string>)
    ensures AddedAll(p, [part] + rest) == AddedAll(Added(p, part), rest)
  {
    hide Added;
    assert ([part] + rest)[1..] == rest;
  }

  lemma AddedFound(p: Parsed, part: string)
    ensures Added(p, part) == Added(p.(found := true), part)
  {
    hide ReadPart;
  }
}
