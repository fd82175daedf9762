/** A multipart/form-data body byte for byte (RFC 7578, section 4.1; RFC 2046, section 5.1.1). */
module MultipartWire {
  import opened Multipart
  import opened Text

  /** What a buffer of n characters holds of a text. */
  predicate Held(text: string, n: nat, line: string) {
    line <= text && |line| == if |text| < n then |text| else n - 1
  }

  lemma PrintedIs(n: nat, text: string, line: string)
    requires n > 0 && Held(text, n, line)
    ensures Printed(n, text) == line
  {
  }

  lemma Front(first: string, parts: seq<string>, delimiter: string)
    ensures Joined(delimiter, [first] + parts) == delimiter + "\r\n" + first + "\r\n" + Joined(delimiter, parts)
  {
    JoinedStep(delimiter, [first] + parts);
    assert ([first] + parts)[1..] == parts;
    assert delimiter + "\r\n" + (first + "\r\n" + Joined(delimiter, parts)) == delimiter + "\r\n" + first + "\r\n" + Joined(delimiter, parts);
  }

  /** A field: the delimiter, its disposition, an empty line, its value, a line end, and then the rest.  The
      name goes up to its first NUL and the disposition line holds 127 characters at most. */
  lemma FieldOnWire(boundary: string, f: Field, fields: seq<Field>, files: seq<File>, name: string, line: string)
    requires CString(f.name, name) && Held("Content-Disposition: form-data; " + "name=\"" + name + "\"", 128, line)
    ensures Body(boundary, [f] + fields, files) ==
            "--" + boundary + "\r\n" + (line + "\r\n" + "\r\n" + f.value) + "\r\n" + Body(boundary, fields, files)
  {
    CStrIs(f.name, name);
    NameText(name);
    PrintedIs(128, "Content-Disposition: form-data; " + "name=\"" + name + "\"", line);
    assert Lines([line]) == line + "\r\n" + Lines([]);
    assert FieldPart(f) == line + "\r\n" + "\r\n" + f.value;
    hide FieldPart, Joined;
    assert Parts([f] + fields, files) == [FieldPart(f)] + Parts(fields, files);
    Front(FieldPart(f), Parts(fields, files), "--" + boundary);
  }

  lemma NameText(name: string)
    ensures NAME_IS + name + "\"" == "Content-Disposition: form-data; " + "name=\"" + name + "\""
  {
    NameIs();
    hide NAME_IS;
  }

  lemma NameIs()
    ensures NAME_IS == "Content-Disposition: form-data; " + "name=\""
  {
  }

  /** A file, after the fields: the same with its own name, the type of its content, and 255 characters. */
  lemma FileOnWire(boundary: string, f: File, files: seq<File>, name: string, filename: string, line: string)
    requires CString(f.fieldName, name) && CString(f.filename, filename)
    requires Held("Content-Disposition: form-data; " + "name=\"" + name + "\"; filename=\"" + filename + "\"", 256, line)
    ensures Body(boundary, [], [f] + files) ==
            "--" + boundary + "\r\n" + (line + "\r\n" + "Content-Type: " + f.contentType + "\r\n" + "\r\n" + f.content) + "\r\n"
            + Body(boundary, [], files)
  {
    CStrIs(f.fieldName, name);
    CStrIs(f.filename, filename);
    FileText(name, filename);
    PrintedIs(256, "Content-Disposition: form-data; " + "name=\"" + name + "\"; filename=\"" + filename + "\"", line);
    FilePartIs(f, line);
    hide FilePart, Joined, FileDisposition;
    assert Parts([], [f] + files) == [FilePart(f)] + Parts([], files);
    Front(FilePart(f), Parts([], files), "--" + boundary);
  }

  lemma FilePartIs(f: File, line: string)
    requires Printed(256, FileDisposition(f)) == line
    ensures FilePart(f) == line + "\r\n" + "Content-Type: " + f.contentType + "\r\n" + "\r\n" + f.content
  {
    hide FileDisposition, Printed;
    var t := TYPE_IS + f.contentType;
    assert [line, t][1..] == [t] && Lines([t]) == t + "\r\n" + Lines([]);
    assert Lines([line, t]) == line + "\r\n" + Lines([t]);
    assert line + "\r\n" + (t + "\r\n" + "") + "\r\n" + f.content
        == line + "\r\n" + "Content-Type: " + f.contentType + "\r\n" + "\r\n" + f.content;
  }

  lemma FileText(name: string, filename: string)
    ensures NAME_IS + name + FILENAME_IS + filename + "\"" ==
            "Content-Disposition: form-data; " + "name=\"" + name + "\"; filename=\"" + filename + "\""
  {
    NameIs();
    hide NAME_IS;
  }

  /** Behind the last part comes the closing delimiter. */
  lemma EndOnWire(boundary: string)
    ensures Body(boundary, [], []) == "--" + boundary + "--" + "\r\n"
  {
  }
}
