/** Searching in text, and text made of lines. */
module Text {
  import opened Options

  /** What arrives in several reads. */
  function Concat<T>(chunks: seq<seq<T>>): seq<T>
    decreases |chunks|
  {
    if |chunks| == 0 then [] else chunks[0] + Concat(chunks[1..])
  }

  predicate StartsWith(s: string, pattern: string) {
    |pattern| <= |s| && s[..|pattern|] == pattern
  }

  /** std::string::find. */
  function Find(s: string, pattern: string): (r: Option<nat>)
    requires pattern != ""
    ensures r.Some? ==> r.value + |pattern| <= |s|
    decreases |s|
  {
    if |s| < |pattern| then None
    else if StartsWith(s, pattern) then Some(0)
    else match Find(s[1..], pattern)
      case None => None
      case Some(i) => Some(i + 1)
  }

  /** What is found is the pattern. */
  lemma {:induction false} FindSound(s: string, pattern: string)
    requires pattern != "" && Find(s, pattern).Some?
    ensures s[Find(s, pattern).value..Find(s, pattern).value + |pattern|] == pattern
    decreases |s|
  {
    if !StartsWith(s, pattern) {
      FindSound(s[1..], pattern);
      var i := Find(s[1..], pattern).value;
      assert s[i + 1..i + 1 + |pattern|] == s[1..][i..i + |pattern|];
    }
  }

  /** The pattern stands in s at place i. */
  predicate StandsAt(s: string, pattern: string, i: nat) {
    i + |pattern| <= |s| && s[i..i + |pattern|] == pattern
  }

  /** Find answers with i if and only if the pattern stands there and nowhere before. */
  lemma {:induction false} FindIs(s: string, pattern: string, i: nat)
    requires pattern != ""
    ensures Find(s, pattern) == Some(i) <==> StandsAt(s, pattern, i) && forall j: nat :: j < i ==> !StandsAt(s, pattern, j)
    decreases |s|
  {
    assert StandsAt(s, pattern, 0) <==> StartsWith(s, pattern);
    if |pattern| <= |s| && !StartsWith(s, pattern) && i > 0 {
      FindIs(s[1..], pattern, i - 1);
      Shifted(s, pattern);
      hide StandsAt, StartsWith;
      if forall j: nat :: j < i - 1 ==> !StandsAt(s[1..], pattern, j) {
        forall j: nat | j < i ensures !StandsAt(s, pattern, j) {
          if j > 0 { assert !StandsAt(s[1..], pattern, j - 1); }
        }
      }
      assert StandsAt(s[1..], pattern, i - 1) == StandsAt(s, pattern, i);
    }
  }

  lemma Shifted(s: string, pattern: string)
    requires |s| > 0
    ensures forall j: nat :: StandsAt(s[1..], pattern, j) == StandsAt(s, pattern, j + 1)
  {
    forall j: nat ensures StandsAt(s[1..], pattern, j) == StandsAt(s, pattern, j + 1) {
      if j + 1 + |pattern| <= |s| { assert s[1..][j..j + |pattern|] == s[j + 1..j + 1 + |pattern|]; }
    }
  }

  const CRLF := "\r\n"
  const BLANK_LINE := "\r\n\r\n"

  /** What comes later does not move the first occurrence. */
  lemma {:induction false} FindStable(s: string, more: string, pattern: string)
    requires pattern != "" && Find(s, pattern).Some?
    ensures Find(s + more, pattern) == Find(s, pattern)
    decreases |s|
  {
    assert (s + more)[..|pattern|] == s[..|pattern|];
    if s[..|pattern|] != pattern {
      assert (s + more)[1..] == s[1..] + more;
      FindStable(s[1..], more, pattern);
    }
  }

  /** A line end inside the buffer is found, if not before. */
  lemma {:induction false} FindWithin(s: string, i: nat, pattern: string)
    requires pattern != "" && i + |pattern| <= |s| && s[i..i + |pattern|] == pattern
    ensures Find(s, pattern).Some? && Find(s, pattern).value <= i
    decreases i
  {
    if s[..|pattern|] != pattern {
      assert s[1..][i - 1..i - 1 + |pattern|] == s[i..i + |pattern|];
      FindWithin(s[1..], i - 1, pattern);
    }
  }

  /** The text up to the first NUL: c_str(). */
  function CStr(s: string): string
    decreases |s|
  {
    if |s| == 0 || s[0] as int == 0 then "" else [s[0]] + CStr(s[1..])
  }

  /** c is what comes before the first NUL, if there is one. */
  predicate CString(s: string, c: string) {
    c <= s && (forall i :: 0 <= i < |c| ==> c[i] as int != 0) && (|c| < |s| ==> s[|c|] as int == 0)
  }

  lemma {:induction false} CStrIs(s: string, c: string)
    ensures c == CStr(s) <==> CString(s, c)
    decreases |s|
  {
    if |s| > 0 && s[0] as int != 0 {
      var t := CStr(s[1..]);
      CStrIs(s[1..], t);
      assert CString(s, [s[0]] + t);
      if CString(s, c) && c != "" {
        assert CString(s[1..], c[1..]);
        CStrIs(s[1..], c[1..]);
        assert c == [c[0]] + c[1..];
      }
    }
  }

  /** Trailer lines are not empty and have no line end inside. */
  predicate LineOk(line: string) {
    line != "" && '\r' !in line
  }

  function Lines(ls: seq<string>): string
    decreases |ls|
  {
    if |ls| == 0 then "" else ls[0] + CRLF + Lines(ls[1..])
  }

  /** A line is found at its end. */
  lemma {:induction false} FindLine(line: string, rest: string)
    requires '\r' !in line
    ensures Find(line + CRLF + rest, CRLF) == Some(|line|)
    decreases |line|
  {
    var s := line + CRLF + rest;
    if |line| == 0 {
      assert s[..2] == CRLF;
    } else {
      assert s[0] == line[0] && s[..2][0] != CRLF[0];
      assert s[1..] == line[1..] + CRLF + rest;
      FindLine(line[1..], rest);
    }
  }

  /** A place where the pattern does not begin. */
  lemma FindNext(s: string, pattern: string)
    requires pattern != "" && |s| > 0 && !StartsWith(s, pattern) && Find(s[1..], pattern).Some?
    ensures Find(s, pattern) == Some(Find(s[1..], pattern).value + 1)
  {
    hide StartsWith;
  }

  lemma {:induction false} FindPastLine(line: string, t: string)
    requires '\r' !in line && Find(t, BLANK_LINE).Some?
    ensures Find(line + t, BLANK_LINE) == Some(|line| + Find(t, BLANK_LINE).value)
    decreases |line|
  {
    var s := line + t;
    hide Find;
    if |line| == 0 {
      assert s == t;
    } else {
      assert s[0] == line[0] && s[..4][0] != BLANK_LINE[0];
      assert s[1..] == line[1..] + t;
      FindPastLine(line[1..], t);
      FindNext(s, BLANK_LINE);
    }
  }

  /** A line end before another line is no empty line. */
  lemma FindPastEnd(next: string)
    requires next != "" && next[0] != '\r' && Find(next, BLANK_LINE).Some?
    ensures Find(CRLF + next, BLANK_LINE) == Some(2 + Find(next, BLANK_LINE).value)
  {
    var t := CRLF + next;
    hide Find;
    var u := "\n" + next;
    assert t[1..] == u && u[1..] == next;
    assert t[..4][2] == next[0] && BLANK_LINE[2] == '\r';
    assert u[..4][0] == '\n' && BLANK_LINE[0] == '\r';
    FindNext(u, BLANK_LINE);
    FindNext(t, BLANK_LINE);
  }

  lemma FindHere(rest: string)
    ensures Find(BLANK_LINE + rest, BLANK_LINE) == Some(0)
  {
    assert (BLANK_LINE + rest)[..4] == BLANK_LINE;
  }

  /** The empty line after some trailer lines. */
  lemma {:induction false} FindTrailerEnd(ls: seq<string>, rest: string)
    requires |ls| > 0 && forall i :: 0 <= i < |ls| ==> LineOk(ls[i])
    ensures |Lines(ls)| >= 2 && Find(Lines(ls) + CRLF + rest, BLANK_LINE) == Some(|Lines(ls)| - 2)
    decreases |ls|
  {
    hide Find;
    var line, next := ls[0], Lines(ls[1..]) + CRLF + rest;
    assert Lines(ls) + CRLF + rest == line + (CRLF + next);
    if |ls| == 1 {
      assert CRLF + next == BLANK_LINE + rest;
      FindHere(rest);
    } else {
      FindTrailerEnd(ls[1..], rest);
      assert ls[1] == ls[1..][0] && next[0] == ls[1][0];
      FindPastEnd(next);
    }
    FindPastLine(line, CRLF + next);
  }
}
