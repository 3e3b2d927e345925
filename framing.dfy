/** The text handling the stream consumer (src/api/chat.ts) builds on: splitting on
    newlines, JavaScript's `trim`, and the line framing of a text received in chunks. */
module Framing {

  /** The lines, each followed by its newline: what a reader has consumed once it has
      seen all of them. */
  function Terminated(lines: seq<string>): string {
    if lines == [] then "" else lines[0] + "\n" + Terminated(lines[1..])
  }

  predicate NoNewlines(lines: seq<string>) {
    forall i :: 0 <= i < |lines| ==> '\n' !in lines[i]
  }

  lemma {:induction false} TerminatedAppend(a: seq<string>, b: seq<string>)
    ensures Terminated(a + b) == Terminated(a) + Terminated(b)
  {
    if a == [] {
      assert a + b == b;
    } else {
      assert (a + b)[1..] == a[1..] + b;
      TerminatedAppend(a[1..], b);
    }
  }

  /** `s.split('\n')`: the pieces between newlines, at least one, none holding a newline;
      joining them back with newlines gives `s`. */
  function Split(s: string): (parts: seq<string>)
    ensures |parts| >= 1
    ensures NoNewlines(parts)
    ensures Terminated(parts[..|parts| - 1]) + parts[|parts| - 1] == s
  {
    if s == "" then [""]
    else
      var rest := Split(s[1..]);
      assert s == [s[0]] + s[1..];
      if s[0] == '\n' then
        NewlineStep(rest, s[1..]);
        [""] + rest
      else
        CharStep(s[0], rest, s[1..]);
        [[s[0]] + rest[0]] + rest[1..]
  }

  /** A leading newline ends an empty first piece. */
  lemma NewlineStep(rest: seq<string>, t: string)
    requires |rest| >= 1 && NoNewlines(rest) && Terminated(rest[..|rest| - 1]) + rest[|rest| - 1] == t
    ensures var parts := [""] + rest;
      NoNewlines(parts) && Terminated(parts[..|parts| - 1]) + parts[|parts| - 1] == "\n" + t
  {
    var parts := [""] + rest;
    assert parts[..|parts| - 1] == [""] + rest[..|rest| - 1];
    assert parts[..|parts| - 1][1..] == rest[..|rest| - 1];
  }

  /** Any other leading character joins the first piece. */
  lemma CharStep(c: char, rest: seq<string>, t: string)
    requires c != '\n'
    requires |rest| >= 1 && NoNewlines(rest) && Terminated(rest[..|rest| - 1]) + rest[|rest| - 1] == t
    ensures var parts := [[c] + rest[0]] + rest[1..];
      NoNewlines(parts) && Terminated(parts[..|parts| - 1]) + parts[|parts| - 1] == [c] + t
  {
    var head := [c] + rest[0];
    var parts := [head] + rest[1..];
    assert '\n' !in head by { assert '\n' !in rest[0]; }
    assert forall k :: 1 <= k < |parts| ==> parts[k] == rest[k];
    if |rest| > 1 {
      var mid := rest[1..|rest| - 1];
      var last := rest[|rest| - 1];
      assert parts[..|parts| - 1] == [head] + mid;
      assert rest[..|rest| - 1] == [rest[0]] + mid;
      assert ([head] + mid)[1..] == mid;
      assert ([rest[0]] + mid)[1..] == mid;
      var tm := Terminated(mid);
      assert Terminated([head] + mid) == head + "\n" + tm;
      assert Terminated([rest[0]] + mid) == rest[0] + "\n" + tm;
      assert head + "\n" + tm + last == [c] + (rest[0] + "\n" + tm + last);
    } else {
      assert parts[..|parts| - 1] == [];
      assert rest[..|rest| - 1] == [];
    }
  }

  /** The complete lines of a text: every piece that a newline ends. */
  function CompleteLines(text: string): seq<string> {
    var parts := Split(text);
    parts[..|parts| - 1]
  }

  /** The unterminated rest of a text, after its last newline. */
  function Remainder(text: string): string {
    var parts := Split(text);
    parts[|parts| - 1]
  }

  lemma {:induction false} SplitWithoutNewline(s: string)
    requires '\n' !in s
    ensures Split(s) == [s]
  {
    if s != "" {
      SplitWithoutNewline(s[1..]);
      assert s == [s[0]] + s[1..];
    }
  }

  lemma {:induction false} SplitAfterLine(line: string, rest: string)
    requires '\n' !in line
    ensures Split(line + "\n" + rest) == [line] + Split(rest)
  {
    var s := line + "\n" + rest;
    if line == "" {
      assert s[1..] == rest;
    } else {
      assert s[1..] == line[1..] + "\n" + rest;
      SplitAfterLine(line[1..], rest);
      assert [line[0]] + line[1..] == line;
    }
  }

  /** Framing is unique: a text made of newline-free lines, each terminated, followed by a
      newline-free rest has exactly those complete lines and that remainder. */
  lemma {:induction false} LinesOfFramedText(lines: seq<string>, rest: string)
    requires NoNewlines(lines) && '\n' !in rest
    ensures Split(Terminated(lines) + rest) == lines + [rest]
    ensures CompleteLines(Terminated(lines) + rest) == lines
    ensures Remainder(Terminated(lines) + rest) == rest
  {
    if lines == [] {
      SplitWithoutNewline(rest);
    } else {
      LinesOfFramedText(lines[1..], rest);
      assert Terminated(lines) + rest == lines[0] + "\n" + (Terminated(lines[1..]) + rest);
      SplitAfterLine(lines[0], Terminated(lines[1..]) + rest);
      assert lines == [lines[0]] + lines[1..];
    }
    var parts := lines + [rest];
    assert parts[..|parts| - 1] == lines;
  }

  /** The text received so far: the chunks in arrival order. */
  function Concat(chunks: seq<string>): string {
    if chunks == [] then "" else Concat(chunks[..|chunks| - 1]) + chunks[|chunks| - 1]
  }

  /** A text whose last line is unterminated loses that line: its complete lines are those
      of the text before it. */
  lemma UnterminatedTailDropped(lines: seq<string>, tail: string)
    requires NoNewlines(lines) && '\n' !in tail
    ensures CompleteLines(Terminated(lines) + tail) == CompleteLines(Terminated(lines))
  {
    LinesOfFramedText(lines, tail);
    LinesOfFramedText(lines, "");
    assert Terminated(lines) + "" == Terminated(lines);
  }

  // ---------------------------------------------------------------------------
  // String.prototype.trim

  /** The characters `trim` removes: white space and line terminators. */
  predicate IsWhitespace(c: char) {
    || c == '\t' || c == '\n' || c == '\U{000B}' || c == '\U{000C}' || c == '\r' || c == ' '
    || c == '\U{00A0}' || c == '\U{1680}' || ('\U{2000}' <= c <= '\U{200A}')
    || c == '\U{2028}' || c == '\U{2029}' || c == '\U{202F}' || c == '\U{205F}'
    || c == '\U{3000}' || c == '\U{FEFF}'
  }

  /** The text without its leading white space. */
  function TrimStart(s: string): string {
    if s != "" && IsWhitespace(s[0]) then TrimStart(s[1..]) else s
  }

  /** The text without its trailing white space. */
  function TrimEnd(s: string): string {
    if s != "" && IsWhitespace(s[|s| - 1]) then TrimEnd(s[..|s| - 1]) else s
  }

  function Trim(s: string): string {
    TrimEnd(TrimStart(s))
  }

  /** TrimStart keeps a suffix, removes only white space, and leaves no leading white space. */
  lemma {:induction false} TrimStartRemovesLeadingSpace(s: string)
    ensures var r := TrimStart(s);
      && |r| <= |s| && r == s[|s| - |r|..]
      && (forall i :: 0 <= i < |s| - |r| ==> IsWhitespace(s[i]))
      && (r == "" || !IsWhitespace(r[0]))
  {
    if s != "" && IsWhitespace(s[0]) {
      var tail := s[1..];
      TrimStartRemovesLeadingSpace(tail);
      var r := TrimStart(tail);
      assert tail[|tail| - |r|..] == s[|s| - |r|..];
      forall i | 0 <= i < |s| - |r| ensures IsWhitespace(s[i]) {
        if i > 0 { assert s[i] == tail[i - 1]; }
      }
    }
  }

  /** TrimEnd keeps a prefix, removes only white space, and leaves no trailing white space. */
  lemma {:induction false} TrimEndRemovesTrailingSpace(s: string)
    ensures var r := TrimEnd(s);
      && |r| <= |s| && r == s[..|r|]
      && (forall i :: |r| <= i < |s| ==> IsWhitespace(s[i]))
      && (r == "" || !IsWhitespace(r[|r| - 1]))
  {
    if s != "" && IsWhitespace(s[|s| - 1]) {
      var init := s[..|s| - 1];
      TrimEndRemovesTrailingSpace(init);
      var r := TrimEnd(init);
      assert init[..|r|] == s[..|r|];
      forall i | |r| <= i < |s| ensures IsWhitespace(s[i]) {
        if i < |s| - 1 { assert s[i] == init[i]; }
      }
    }
  }

  /** A text that neither starts nor ends with white space is its own trimmed form. */
  lemma TrimUnpadded(s: string)
    requires s == "" || (!IsWhitespace(s[0]) && !IsWhitespace(s[|s| - 1]))
    ensures Trim(s) == s
  {
  }

  predicate StartsWith(s: string, prefix: string) {
    |prefix| <= |s| && s[..|prefix|] == prefix
  }
}
