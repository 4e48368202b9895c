/** What texts with heredocs are rewritten to, in terms of their characters (common/proto/multiline.go:17-181). */
module HeredocText {
  import opened Text
  import opened Heredoc

  // ----- Lines -----

  /** All lines end with their only newline, but for the last one, which has none. */
  lemma {:induction false} LinesEnd(text: string)
    ensures var lines := SplitAfter(text);
      && Concat(lines) == text
      && '\n' !in lines[|lines| - 1]
      && forall i | 0 <= i < |lines| - 1 ::
        lines[i] != "" && lines[i][|lines[i]| - 1] == '\n' && '\n' !in lines[i][..|lines[i]| - 1]
    decreases |text|
  {
    ConcatSplit(text);
    NoNewlineBefore(text);
    var i, lines := FirstNewline(text), SplitAfter(text);
    if i < |text| {
      LinesEnd(text[i + 1..]);
      var rest := SplitAfter(text[i + 1..]);
      assert lines[0] == text[..i + 1] && lines[0][..i] == text[..i];
      forall k | 0 <= k < |lines| - 1
        ensures lines[k] != "" && lines[k][|lines[k]| - 1] == '\n' && '\n' !in lines[k][..|lines[k]| - 1]
      {
        assert k > 0 ==> lines[k] == rest[k - 1];
      }
    }
  }

  lemma {:induction false} NoNewlineBefore(text: string)
    ensures '\n' !in text[..FirstNewline(text)]
    ensures FirstNewline(text) == |text| ==> '\n' !in text
  {
    if text != "" && text[0] != '\n' {
      NoNewlineBefore(text[1..]);
      var i := FirstNewline(text[1..]);
      assert text[..i + 1] == [text[0]] + text[1..][..i];
      assert text == [text[0]] + text[1..];
    }
  }

  // ----- White space -----

  /** A character in UTF-8. */
  function Utf8(c: int): string
    requires 0 <= c < 0x11_0000
  {
    if c < 0x80 then [c as char]
    else if c < 0x800 then [(0xC0 + c / 64) as char, (0x80 + c % 64) as char]
    else if c < 0x1_0000 then [(0xE0 + c / 4096) as char, (0x80 + c / 64 % 64) as char, (0x80 + c % 64) as char]
    else [(0xF0 + c / 262144) as char, (0x80 + c / 4096 % 64) as char, (0x80 + c / 64 % 64) as char,
          (0x80 + c % 64) as char]
  }

  /** The bytes of exactly these characters are taken for white space, as a whole. */
  lemma SpaceExactly(c: int, rest: string)
    requires 0 <= c < 0x11_0000
    ensures SpaceLen(Utf8(c) + rest) == if IsSpaceCharacter(c) then |Utf8(c)| else 0
  {
    var s, bytes := Utf8(c) + rest, Utf8(c);
    assert forall i | 0 <= i < |bytes| :: s[i] == bytes[i];
  }

  // ----- Markers -----

  predicate AllBlank(s: string) {
    forall i | 0 <= i < |s| :: s[i] == ' ' || s[i] == '\t' || s[i] == '\n' || s[i] == '\U{0C}' || s[i] == '\r'
  }

  predicate IsWord(s: string) {
    s != "" && forall i | 0 <= i < |s| :: s[i] == '_' || 'a' <= s[i] <= 'z' || 'A' <= s[i] <= 'Z'
  }

  /** The line is this word among blanks. */
  ghost predicate IsTerminator(line: string, word: string) {
    exists a: string, b: string | AllBlank(a) && AllBlank(b) :: line == a + word + b
  }

  /** The line is this text, two angles, and the word among blanks. */
  ghost predicate IsStart(line: string, prefix: string, word: string) {
    IsWord(word) && exists tail: string | IsTerminator(tail, word) :: line == prefix + "<<" + tail
  }

  /** Blanks on the right are trimmed, and nothing else. */
  lemma {:induction false} TrimRightExact(s: string) returns (b: string)
    ensures AllBlank(b) && s == TrimRight(s) + b
    ensures TrimRight(s) != "" ==> !AllBlank([TrimRight(s)[|TrimRight(s)| - 1]])
    decreases |s|
  {
    if s != "" && IsBlankChar(s[|s| - 1]) {
      b := TrimRightExact(s[..|s| - 1]);
      assert s == s[..|s| - 1] + [s[|s| - 1]];
      b := b + [s[|s| - 1]];
    } else {
      b := "";
      assert s != "" ==> [s[|s| - 1]][0] == s[|s| - 1];
    }
  }

  lemma {:induction false} TrimLeftExact(s: string) returns (a: string)
    ensures AllBlank(a) && s == a + TrimLeft(s)
    ensures TrimLeft(s) != "" ==> !AllBlank([TrimLeft(s)[0]])
    decreases |s|
  {
    if s != "" && IsBlankChar(s[0]) {
      a := TrimLeftExact(s[1..]);
      assert s == [s[0]] + s[1..];
      a := [s[0]] + a;
    } else {
      a := "";
      assert s != "" ==> [s[0]][0] == s[0];
    }
  }

  lemma {:induction false} TrimRightBlanks(s: string, b: string)
    requires AllBlank(b) && s != "" && !AllBlank([s[|s| - 1]])
    ensures TrimRight(s + b) == s
    decreases |b|
  {
    if b == "" {
      assert s + b == s;
    } else {
      var whole := s + b;
      assert whole[|whole| - 1] == b[|b| - 1] && whole[..|whole| - 1] == s + b[..|b| - 1];
      TrimRightBlanks(s, b[..|b| - 1]);
    }
  }

  lemma {:induction false} TrimLeftBlanks(a: string, s: string)
    requires AllBlank(a) && s != "" && !AllBlank([s[0]])
    ensures TrimLeft(a + s) == s
    decreases |a|
  {
    if a == "" {
      assert a + s == s;
    } else {
      assert (a + s)[0] == a[0] && (a + s)[1..] == a[1..] + s;
      TrimLeftBlanks(a[1..], s);
    }
  }

  lemma WordNotBlank(word: string)
    requires IsWord(word)
    ensures !AllBlank([word[0]]) && !AllBlank([word[|word| - 1]])
  {
    assert [word[0]][0] == word[0] && [word[|word| - 1]][0] == word[|word| - 1];
  }

  /** A line ends a heredoc exactly if it is its word among blanks. */
  lemma EndsExactly(line: string, word: string)
    requires IsWord(word)
    ensures Ends(line, word) <==> IsTerminator(line, word)
  {
    WordNotBlank(word);
    if Ends(line, word) {
      var b := TrimRightExact(line);
      var a := TrimLeftExact(TrimRight(line));
      assert line == a + word + b;
    }
    if a: string, b: string :| AllBlank(a) && AllBlank(b) && line == a + word + b {
      TrimRightBlanks(a + word, b);
      TrimLeftBlanks(a, word);
    }
  }

  lemma {:induction false} LastAnglesAt(s: string)
    ensures match LastAngles(s)
      case None => forall i | 0 <= i < |s| - 1 :: !(s[i] == '<' && s[i + 1] == '<')
      case Some(k) => s[k] == '<' && s[k + 1] == '<' && forall i | k < i < |s| - 1 :: !(s[i] == '<' && s[i + 1] == '<')
    decreases |s|
  {
    if |s| >= 2 {
      assert s[|s| - 2..] == [s[|s| - 2], s[|s| - 1]];
      LastAnglesAt(s[..|s| - 1]);
    }
  }

  lemma NoAngles(tail: string, word: string)
    requires IsWord(word) && IsTerminator(tail, word)
    ensures '<' !in tail
  {
    var a: string, b: string :| AllBlank(a) && AllBlank(b) && tail == a + word + b;
  }

  /** A line starts a heredoc exactly if it is a text, two angles, and a word among blanks: then these are the text
      and the word. */
  lemma StartExactly(line: string, prefix: string, word: string)
    ensures StartOf(line) == Some((prefix, word)) <==> IsStart(line, prefix, word)
  {
    hide TrimLeft, TrimRight;
    LastAnglesAt(line);
    if StartOf(line) == Some((prefix, word)) {
      var k := LastAngles(line).value;
      WordChars(word);
      EndsExactly(line[k + 2..], word);
      assert line == prefix + "<<" + line[k + 2..];
    }
    if IsStart(line, prefix, word) {
      var tail: string :| IsTerminator(tail, word) && line == prefix + "<<" + tail;
      NoAngles(tail, word);
      EndsExactly(tail, word);
      WordChars(word);
      var k := |prefix|;
      assert line[k] == '<' && line[k + 1] == '<';
      forall j | k + 2 <= j < |line| ensures line[j] != '<' {
        assert line[j] == tail[j - k - 2];
      }
      assert LastAngles(line) == Some(k);
      assert line[..k] == prefix && line[k + 2..] == tail;
    }
  }

  ghost predicate Starts(line: string) {
    exists prefix, word :: IsStart(line, prefix, word)
  }

  lemma StartsExactly(line: string)
    ensures StartOf(line).Some? <==> Starts(line)
  {
    hide StartOf, IsStart;
    if StartOf(line).Some? {
      var (prefix, word) := StartOf(line).value;
      StartExactly(line, prefix, word);
    }
    if prefix, word :| IsStart(line, prefix, word) {
      StartExactly(line, prefix, word);
    }
  }

  lemma WordChars(word: string)
    ensures IsWord(word) <==> word != "" && forall c | c in word :: IsWordChar(c)
  {
    if forall c | c in word :: IsWordChar(c) {
      assert forall i | 0 <= i < |word| :: word[i] in word;
    }
  }

  // ----- Literals -----

  /** Exactly the printable characters of ASCII are written as they are, but for the quote and the backslash. */
  lemma EscapeExactly(c: char)
    requires IsByte(c)
    ensures Escape(c) == [c] <==> 32 <= c as int <= 126 && c != '"' && c != '\\'
    ensures Escape(c) != [c] ==> |Escape(c)| >= 2 && Escape(c)[0] == '\\'
  {
  }

  // ----- Whole texts -----

  /** The lines without what is dropped from each, and with newlines between them. */
  function Dedented(skip: nat, body: seq<string>): string {
    Join(seq(|body|, i requires 0 <= i < |body| =>
           if skip <= |TrimNewline(body[i])| then TrimNewline(body[i])[skip..] else ""),
         '\n')
  }

  lemma {:induction false} JoinSnoc(parts: seq<string>, part: string)
    requires parts != []
    ensures Join(parts + [part], '\n') == Join(parts, '\n') + "\n" + part
  {
    assert (parts + [part])[1..] == parts[1..] + [part];
    if |parts| > 1 {
      JoinSnoc(parts[1..], part);
    }
  }

  lemma {:induction false} JoinedIsJoin(skip: nat, lines: seq<string>)
    ensures Joined(skip, lines) == Join(seq(|lines|, i requires 0 <= i < |lines| => Drop(skip, lines[i])), '\n')
  {
    var parts := seq(|lines|, i requires 0 <= i < |lines| => Drop(skip, lines[i]));
    if |lines| > 1 {
      var front := lines[..|lines| - 1];
      JoinedIsJoin(skip, front);
      assert parts == parts[..|parts| - 1] + [Drop(skip, lines[|lines| - 1])];
      assert parts[..|parts| - 1] == seq(|front|, i requires 0 <= i < |front| => Drop(skip, front[i]));
      JoinSnoc(parts[..|parts| - 1], Drop(skip, lines[|lines| - 1]));
    }
  }

  lemma DedentedIs(skip: nat, body: seq<string>)
    ensures Joined(skip, TrimAll(body)) == Dedented(skip, body)
  {
    JoinedIsJoin(skip, TrimAll(body));
    hide Joined, Join;
    var lines := TrimAll(body);
    assert seq(|lines|, i requires 0 <= i < |lines| => Drop(skip, lines[i]))
        == seq(|body|, i requires 0 <= i < |body| =>
             if skip <= |TrimNewline(body[i])| then TrimNewline(body[i])[skip..] else "");
  }

  /** How many bytes each line loses. */
  function Lost(body: seq<string>): nat {
    if body == [] then 0 else |Dropped(body)|
  }

  lemma LiteralIsEscaped(body: seq<string>)
    requires ByteLines(body)
    ensures AllBytes(Dedented(Lost(body), body))
    ensures Literal(body) == "\"" + EscapeAll(Dedented(Lost(body), body)) + "\""
  {
    TrimmedBytes(body);
    JoinedBytes(Lost(body), TrimAll(body));
    DedentedIs(Lost(body), body);
    hide EscapeAll, Joined, Dedented, TrimAll;
  }

  /** The literal is read as the dedented lines, whatever follows it. */
  lemma LiteralReads(body: seq<string>, rest: string)
    requires ByteLines(body)
    ensures Literal(body) != "" && Literal(body)[0] == '"'
    ensures Unescape(Literal(body)[1..] + rest) == Some((Dedented(Lost(body), body), rest))
  {
    hide EscapeAll, Unescape, Dedented, Literal, Lost, Joined, TrimAll;
    TrimmedBytes(body);
    LiteralIsEscaped(body);
    LiteralStandsFor(Lost(body), TrimAll(body), rest);
    DedentedIs(Lost(body), body);
    assert Literal(body)[1..] + rest == EscapeAll(Dedented(Lost(body), body)) + "\"" + rest;
  }

  lemma {:induction false} PlainBefore(before: seq<string>, rest: seq<string>)
    requires ByteLines(before + rest) && forall line | line in before :: StartOf(line).None?
    ensures ByteLines(rest) && Rewritten(before + rest) == Follow(Concat(before), Rewritten(rest))
    decreases |before|
  {
    BytesOf(before + rest, |before|);
    assert (before + rest)[|before|..] == rest;
    if before == [] {
      assert before + rest == rest;
      FollowTwice("", "", Rewritten(rest));
    } else {
      hide StartOf;
      assert before[0] in before && forall line | line in before[1..] :: line in before;
      assert (before + rest)[1..] == before[1..] + rest && (before + rest)[0] == before[0];
      BytesOf(before + rest, 1);
      PlainBefore(before[1..], rest);
      FollowTwice(before[0], Concat(before[1..]), Rewritten(rest));
    }
  }

  /** Lines without the start of a heredoc, a start, lines that do not end it, and one that does: what is before is
      kept, then come the text before the angles, a literal that is read as the dedented lines, and what the rest
      is rewritten to, on a new line. */
  lemma HeredocReplaced(before: seq<string>, start: string, body: seq<string>, end: string, after: seq<string>,
                        prefix: string, word: string)
    returns (literal: string)
    requires ByteLines(before + [start] + body + [end] + after)
    requires forall line | line in before :: !Starts(line)
    requires IsStart(start, prefix, word) && IsTerminator(end, word)
    requires forall line | line in body :: !IsTerminator(line, word)
    ensures ByteLines(after) && ByteLines(body)
    ensures Rewritten(before + [start] + body + [end] + after)
         == Follow(Concat(before) + prefix + literal + if after == [] then "" else "\n", Rewritten(after))
    ensures literal != "" && literal[0] == '"'
    ensures forall rest :: Unescape(literal[1..] + rest) == Some((Dedented(Lost(body), body), rest))
  {
    var at := [start] + body + [end] + after;
    Parts(before, start, body, end, after);
    forall line | line in before ensures StartOf(line).None? {
      StartsExactly(line);
    }
    StartExactly(start, prefix, word);
    forall line ensures Ends(line, word) <==> IsTerminator(line, word) {
      EndsExactly(line, word);
    }
    PlainBefore(before, at);
    EndIs(at[1..], word, |body|);
    RewrittenStart(at, |body|, prefix, word);
    literal := Literal(body);
    forall rest {
      LiteralReads(body, rest);
    }
    LiteralReads(body, "");
    hide Rewritten, Literal, Unescape, StartOf, Ends, IsStart, IsTerminator, Lost, Dedented;
    Chained(Concat(before), prefix, literal, if after == [] then "" else "\n", Rewritten(after));
  }

  lemma Chained(before: string, prefix: string, literal: string, nl: string, r: Option<string>)
    ensures Follow(before, Follow(prefix + literal + nl, r)) == Follow(before + prefix + literal + nl, r)
  {
    FollowTwice(before, prefix + literal + nl, r);
    assert before + (prefix + literal + nl) == before + prefix + literal + nl;
  }

  lemma Parts(before: seq<string>, start: string, body: seq<string>, end: string, after: seq<string>)
    requires ByteLines(before + [start] + body + [end] + after)
    ensures var at := [start] + body + [end] + after;
      && before + [start] + body + [end] + after == before + at && ByteLines(at) && ByteLines(body) && ByteLines(after)
      && at[0] == start && at[1..] == body + [end] + after && at[1..|body| + 1] == body && at[|body| + 2..] == after
  {
    var at, all := [start] + body + [end] + after, before + [start] + body + [end] + after;
    assert all == before + at;
    assert forall line | line in at :: line in all;
    assert forall line | line in body :: line in at;
    assert forall line | line in after :: line in at;
  }

  /** Without an end it is the error. */
  lemma NoTerminator(before: seq<string>, start: string, body: seq<string>, prefix: string, word: string)
    requires ByteLines(before + [start] + body)
    requires forall line | line in before :: !Starts(line)
    requires IsStart(start, prefix, word) && forall line | line in body :: !IsTerminator(line, word)
    ensures Rewritten(before + [start] + body) == None
  {
    var at := [start] + body;
    assert before + [start] + body == before + at;
    forall line | line in before ensures StartOf(line).None? {
      StartsExactly(line);
    }
    StartExactly(start, prefix, word);
    forall line ensures Ends(line, word) <==> IsTerminator(line, word) {
      EndsExactly(line, word);
    }
    PlainBefore(before, at);
    assert at[1..] == body;
    EndIs(at[1..], word, |body|);
  }

  /** Without a start the text stays as it is. */
  lemma NoHeredoc(text: string)
    requires AllBytes(text) && forall line | line in SplitAfter(text) :: !Starts(line)
    ensures ByteLines(SplitAfter(text)) && Rewritten(SplitAfter(text)) == Some(text)
  {
    SplitBytes(text);
    ConcatSplit(text);
    forall line | line in SplitAfter(text) ensures StartOf(line).None? {
      StartsExactly(line);
    }
    NoStartUnchanged(SplitAfter(text));
  }
}
