/** Heredocs in text protos (common/proto/multiline.go:17-181). Texts are strings of bytes. */
module Heredoc {

  import opened Text

  // ----- Lines -----

  /** `\s` of a regular expression. */
  predicate IsBlankChar(c: char) {
    c == ' ' || c == '\t' || c == '\n' || c == '\U{0C}' || c == '\r'
  }

  predicate IsWordChar(c: char) {
    c == '_' || 'a' <= c <= 'z' || 'A' <= c <= 'Z'
  }

  /** Where the first newline is. */
  function FirstNewline(text: string): (i: nat)
    ensures i <= |text| && (i < |text| ==> text[i] == '\n')
  {
    if text == "" || text[0] == '\n' then 0 else 1 + FirstNewline(text[1..])
  }

  /** strings.SplitAfter at newlines. */
  function SplitAfter(text: string): (lines: seq<string>)
    ensures lines != []
    decreases |text|
  {
    var i := FirstNewline(text);
    if i == |text| then [text] else [text[..i + 1]] + SplitAfter(text[i + 1..])
  }

  function Concat(lines: seq<string>): string {
    if lines == [] then "" else lines[0] + Concat(lines[1..])
  }

  lemma {:induction false} ConcatSplit(text: string)
    ensures Concat(SplitAfter(text)) == text
    decreases |text|
  {
    var i := FirstNewline(text);
    if i < |text| {
      ConcatSplit(text[i + 1..]);
      assert SplitAfter(text)[1..] == SplitAfter(text[i + 1..]);
      assert text == text[..i + 1] + text[i + 1..];
    } else {
      assert [text][1..] == [];
    }
  }

  // ----- The markers -----

  function TrimRight(s: string): (r: string)
    ensures |r| <= |s|
  {
    if s != "" && IsBlankChar(s[|s| - 1]) then TrimRight(s[..|s| - 1]) else s
  }

  function TrimLeft(s: string): string {
    if s != "" && IsBlankChar(s[0]) then TrimLeft(s[1..]) else s
  }

  /** Where the last `<<` is. */
  function LastAngles(s: string): (r: Option<nat>)
    ensures r.Some? ==> r.value + 2 <= |s|
  {
    if |s| < 2 then None
    else if s[|s| - 2..] == "<<" then Some(|s| - 2)
    else LastAngles(s[..|s| - 1])
  }

  /** What startRE matches: the text before the last `<<`, and the word after it. */
  function StartOf(line: string): Option<(string, string)> {
    match LastAngles(line)
    case None => None
    case Some(i) =>
      var word := TrimLeft(TrimRight(line[i + 2..]));
      if word != "" && forall c | c in word :: IsWordChar(c) then Some((line[..i], word)) else None
  }

  /** What the terminator's expression matches. */
  predicate Ends(line: string, word: string) {
    TrimLeft(TrimRight(line)) == word
  }

  // ----- Leading white space -----

  /** The bytes beyond one-byte characters that unicode.IsSpace holds of: U+1680, U+2000 to U+200A,
      U+2028, U+2029, U+202F, U+205F and U+3000 in UTF-8. */
  predicate IsWideSpace(a: char, b: char, c: char) {
    || (a == '\U{E1}' && b == '\U{9A}' && c == '\U{80}')
    || (a == '\U{E2}' && b == '\U{80}'
        && ('\U{80}' <= c <= '\U{8A}' || c == '\U{A8}' || c == '\U{A9}' || c == '\U{AF}'))
    || (a == '\U{E2}' && b == '\U{81}' && c == '\U{9F}')
    || (a == '\U{E3}' && b == '\U{80}' && c == '\U{80}')
  }

  /** How long the white space character is that s starts with; nothing else is one, and neither is what
      is not UTF-8. */
  function SpaceLen(s: string): (n: nat)
    ensures n <= |s|
  {
    if s == "" then 0
    else if s[0] == ' ' || '\t' <= s[0] <= '\r' then 1
    else if |s| > 1 && s[0] == '\U{C2}' && (s[1] == '\U{85}' || s[1] == '\U{A0}') then 2
    else if |s| > 2 && IsWideSpace(s[0], s[1], s[2]) then 3
    else 0
  }

  /** How much of s is white space before anything else. */
  function LeadLen(s: string): (n: nat)
    ensures n <= |s|
  {
    hide IsWideSpace;
    var n := SpaceLen(s);
    if n == 0 then 0 else n + LeadLen(s[n..])
  }

  lemma {:induction false} LeadEnds(s: string)
    ensures SpaceLen(s[LeadLen(s)..]) == 0
  {
    hide SpaceLen;
    var n := SpaceLen(s);
    if n == 0 {
      assert s[0..] == s;
    } else {
      LeadEnds(s[n..]);
      assert s[n..][LeadLen(s[n..])..] == s[n + LeadLen(s[n..])..];
    }
  }

  function Lead(s: string): (r: string)
    ensures r <= s
  {
    s[..LeadLen(s)]
  }

  /** findLeftWhitespace. */
  method FindLeftWhitespace(s: string) returns (r: string)
    ensures r == Lead(s)
  {
    hide SpaceLen;
    var i := 0;
    assert s[0..] == s;
    while i < |s|
      invariant 0 <= i <= |s| && LeadLen(s) == i + LeadLen(s[i..])
    {
      var n := SpaceLen(s[i..]);
      if n == 0 {
        return s[..i];
      }
      assert s[i..][n..] == s[i + n..];
      i := i + n;
    }
    assert s[..i] == s;
    return s;
  }

  predicate Blank(line: string) {
    |Lead(line)| == |line|
  }

  /** The longest common prefix. */
  function CommonPrefix(a: string, b: string): (r: string)
    ensures r <= a && r <= b
  {
    if a == "" || b == "" || a[0] != b[0] then "" else [a[0]] + CommonPrefix(a[1..], b[1..])
  }

  lemma {:induction false} CommonPrefixLongest(a: string, b: string, p: string)
    requires p <= a && p <= b
    ensures p <= CommonPrefix(a, b)
  {
    if p != "" {
      CommonPrefixLongest(a[1..], b[1..], p[1..]);
    }
  }

  /** findBytewiseLCP. */
  method FindBytewiseLCP(a: string, b: string) returns (r: string)
    ensures r == CommonPrefix(a, b)
  {
    if |a| == 0 || |b| == 0 {
      return "";
    } else if a == b {
      CommonPrefixLongest(a, b, a);
      return a;
    }
    var short := a;
    if |b| < |a| {
      short := b;
    }
    for i := 0 to |short|
      invariant a[..i] == b[..i]
    {
      if a[i] != b[i] {
        PrefixIs(a, b, i);
        return a[..i];
      }
      assert a[..i + 1] == a[..i] + [a[i]] && b[..i + 1] == b[..i] + [b[i]];
    }
    PrefixIs(a, b, |short|);
    assert short[..|short|] == short;
    return short;
  }

  lemma PrefixIs(a: string, b: string, i: nat)
    requires i <= |a| && i <= |b| && a[..i] == b[..i]
    requires i < |a| && i < |b| ==> a[i] != b[i]
    ensures CommonPrefix(a, b) == a[..i]
  {
    CommonPrefixLongest(a, b, a[..i]);
    var p := CommonPrefix(a, b);
    assert forall x | 0 <= x < |p| :: a[x] == p[x] && b[x] == p[x];
  }

  /** The white space dropped from the lines of a heredoc: that of the first line, cut down by every
      later line that is not blank. */
  function Dropped(lines: seq<string>): string
    requires lines != []
  {
    if |lines| == 1 then Lead(lines[0])
    else
      var before, line := Dropped(lines[..|lines| - 1]), lines[|lines| - 1];
      if Blank(line) then before else CommonPrefix(before, Lead(line))
  }

  /** It starts the white space of every line that is not blank. */
  ghost predicate Shared(p: string, lines: seq<string>) {
    forall line | line in lines && !Blank(line) :: p <= Lead(line)
  }

  lemma DropMore(front: seq<string>, line: string, p: string)
    requires front != [] && Shared(Dropped(front), front) && Dropped(front) <= Lead(front[0])
    requires Shared(p, front) && p <= Lead(front[0]) ==> p <= Dropped(front)
    ensures var lines := front + [line];
      && Shared(Dropped(lines), lines) && Dropped(lines) <= Lead(lines[0])
      && (Shared(p, lines) && p <= Lead(lines[0]) ==> p <= Dropped(lines))
  {
    var lines := front + [line];
    assert lines[..|lines| - 1] == front && line in lines;
    assert forall l | l in front :: l in lines;
    if Shared(p, lines) && p <= Lead(lines[0]) && !Blank(line) {
      CommonPrefixLongest(Dropped(front), Lead(line), p);
    }
  }

  /** It is the longest that starts the white space of the first line and of every line that is not
      blank. */
  lemma {:induction false} DroppedLongest(lines: seq<string>, p: string)
    requires lines != []
    ensures Shared(Dropped(lines), lines) && Dropped(lines) <= Lead(lines[0])
    ensures Shared(p, lines) && p <= Lead(lines[0]) ==> p <= Dropped(lines)
  {
    hide Lead, CommonPrefix, Blank;
    var last := |lines| - 1;
    if last > 0 {
      var front, line := lines[..last], lines[last];
      assert lines == front + [line];
      DroppedLongest(front, p);
      DropMore(front, line, p);
    }
  }

  /** So it is all that the white space of the lines shares if and only if the first line is not blank, or
      starts with what the others share. `p` is the longest such text. */
  lemma DroppedExact(lines: seq<string>, p: string)
    requires lines != [] && Shared(p, lines)
    requires forall q: string | Shared(q, lines) :: q <= p
    ensures Dropped(lines) == p <==> !Blank(lines[0]) || p <= lines[0]
  {
    DroppedLongest(lines, p);
    BlankIs(lines[0]);
    assert lines[0] in lines;
    assert Dropped(lines) <= p;
  }

  /** What is dropped from a line that is not blank is exactly that. */
  lemma DroppedFromLine(lines: seq<string>, line: string)
    requires line in lines && !Blank(line)
    ensures TrimNewline(line) == Dropped(lines) + Drop(|Dropped(lines)|, TrimNewline(line))
  {
    DroppedLongest(lines, "");
    hide Dropped, LeadLen, TrimNewline;
    WithoutNewline(Dropped(lines), line);
  }

  lemma WithoutNewline(p: string, line: string)
    requires p <= line && |p| < |line|
    ensures p <= TrimNewline(line)
  {
  }

  // ----- The literal -----

  predicate IsByte(c: char): (r: bool)
    ensures r <==> (c as int) < 256
  {
    c < '\U{0100}'
  }

  ghost predicate AllBytes(s: string) {
    forall c | c in s :: IsByte(c)
  }

  predicate IsPrint(c: char) {
    ' ' <= c <= '~'
  }

  function OctalDigit(d: int): (c: char)
    requires 0 <= d < 8
    ensures '0' <= c <= '7' && c as int - '0' as int == d
  {
    ('0' as int + d) as char
  }

  /** How a byte is written. */
  function Escape(c: char): string
    requires IsByte(c)
  {
    if c == '\n' then "\\n"
    else if c == '\r' then "\\r"
    else if c == '\t' then "\\t"
    else if c == '"' then "\\\""
    else if c == '\\' then "\\\\"
    else if IsPrint(c) then [c]
    else ['\\', OctalDigit(c as int / 64), OctalDigit(c as int / 8 % 8), OctalDigit(c as int % 8)]
  }

  function EscapeAll(s: string): string
    requires AllBytes(s)
  {
    if s == "" then "" else EscapeAll(s[..|s| - 1]) + Escape(s[|s| - 1])
  }

  predicate IsOctal(c: char) {
    '0' <= c <= '7'
  }

  function Value(c: char): int {
    c as int - '0' as int
  }

  /** Reading a text-proto literal, behind its opening quote: the text, and what follows the literal. */
  function Unescape(s: string): Option<(string, string)> {
    if s == "" then None
    else if s[0] == '"' then Some(("", s[1..]))
    else if s[0] != '\\' then Then(s[0], Unescape(s[1..]))
    else if |s| < 2 then None
    else if s[1] == 'n' then Then('\n', Unescape(s[2..]))
    else if s[1] == 'r' then Then('\r', Unescape(s[2..]))
    else if s[1] == 't' then Then('\t', Unescape(s[2..]))
    else if s[1] == '"' || s[1] == '\\' then Then(s[1], Unescape(s[2..]))
    else if |s| >= 4 && IsOctal(s[1]) && IsOctal(s[2]) && IsOctal(s[3]) then
      Then((64 * Value(s[1]) + 8 * Value(s[2]) + Value(s[3])) as char, Unescape(s[4..]))
    else None
  }

  function Then(c: char, r: Option<(string, string)>): Option<(string, string)> {
    match r
    case None => None
    case Some((text, rest)) => Some(([c] + text, rest))
  }

  lemma UnescapeOne(c: char, rest: string)
    requires IsByte(c)
    ensures Unescape(Escape(c) + rest) == Then(c, Unescape(rest))
  {
    hide Then;
    var e := Escape(c);
    var s := e + rest;
    Behind(e, rest);
    OctalBack(c);
    hide OctalDigit;
    assert forall x | 0 <= x < |e| :: s[x] == e[x];
  }

  lemma Behind(e: string, rest: string)
    ensures (e + rest)[|e|..] == rest
  {
  }

  lemma OctalBack(c: char)
    requires IsByte(c)
    ensures var a, b, d := OctalDigit(c as int / 64), OctalDigit(c as int / 8 % 8), OctalDigit(c as int % 8);
      && IsOctal(a) && IsOctal(b) && IsOctal(d)
      && 64 * Value(a) + 8 * Value(b) + Value(d) == c as int
  {
  }

  function Before(text: string, r: Option<(string, string)>): Option<(string, string)> {
    match r
    case None => None
    case Some((more, rest)) => Some((text + more, rest))
  }

  lemma BeforeThen(text: string, c: char, r: Option<(string, string)>)
    ensures Before(text, Then(c, r)) == Before(text + [c], r)
    ensures Before("", r) == r
  {
    if r.Some? {
      assert text + ([c] + r.value.0) == (text + [c]) + r.value.0;
      assert "" + r.value.0 == r.value.0;
    }
  }

  /** Reading undoes writing. */
  lemma {:induction false} UnescapeAll(s: string, rest: string)
    requires AllBytes(s)
    ensures Unescape(EscapeAll(s) + rest) == Before(s, Unescape(rest))
    decreases |s|
  {
    hide Unescape, Escape, Before, Then;
    if s == "" {
      assert EscapeAll(s) + rest == rest;
      BeforeThen("", 'a', Unescape(rest));
    } else {
      var front, c := s[..|s| - 1], s[|s| - 1];
      assert AllBytes(front) && c in s;
      UnescapeAll(front, Escape(c) + rest);
      UnescapeOne(c, rest);
      BeforeThen(front, c, Unescape(rest));
      assert s == front + [c];
      assert EscapeAll(s) + rest == EscapeAll(front) + (Escape(c) + rest);
    }
  }

  // ----- Writing it -----

  function TrimNewline(line: string): (r: string)
    ensures r <= line && (|r| < |line| ==> |r| == |line| - 1 && line[|r|] == '\n')
    ensures line != "" && line[|line| - 1] == '\n' ==> |r| == |line| - 1
  {
    if line != "" && line[|line| - 1] == '\n' then line[..|line| - 1] else line
  }

  function Drop(skip: nat, line: string): string {
    if skip <= |line| then line[skip..] else ""
  }

  /** The lines without their first `skip` bytes, with newlines between them. */
  function Joined(skip: nat, lines: seq<string>): string {
    if lines == [] then ""
    else if |lines| == 1 then Drop(skip, lines[0])
    else Joined(skip, lines[..|lines| - 1]) + "\n" + Drop(skip, lines[|lines| - 1])
  }

  ghost predicate ByteLines(lines: seq<string>) {
    forall line | line in lines :: AllBytes(line)
  }

  lemma DropBytes(skip: nat, line: string)
    requires AllBytes(line)
    ensures AllBytes(Drop(skip, line))
  {
  }

  lemma {:induction false} JoinedBytes(skip: nat, lines: seq<string>)
    requires ByteLines(lines)
    ensures AllBytes(Joined(skip, lines))
  {
    if lines != [] {
      assert lines[|lines| - 1] in lines && lines[0] in lines;
      assert ByteLines(lines[..|lines| - 1]);
      JoinedBytes(skip, lines[..|lines| - 1]);
      DropBytes(skip, lines[|lines| - 1]);
      DropBytes(skip, lines[0]);
    }
  }

  lemma EscapeStep(s: string, c: char)
    requires AllBytes(s) && IsByte(c)
    ensures AllBytes(s + [c]) && EscapeAll(s + [c]) == EscapeAll(s) + Escape(c)
  {
    assert (s + [c])[..|s + [c]| - 1] == s;
  }

  /** writeProtoStringLines. */
  method WriteProtoStringLines(skip: nat, lines: seq<string>) returns (w: string)
    requires ByteLines(lines)
    ensures AllBytes(Joined(skip, lines)) && w == "\"" + EscapeAll(Joined(skip, lines)) + "\""
  {
    hide EscapeAll, Escape;
    w := "\"";
    ghost var done := "";
    EscapeNothing();
    for lIdx := 0 to |lines|
      invariant AllBytes(done) && w == "\"" + EscapeAll(done) && done == Joined(skip, lines[..lIdx])
    {
      assert lines[lIdx] in lines && lines[..lIdx + 1][..lIdx] == lines[..lIdx];
      if lIdx != 0 {
        EscapeStep(done, '\n');
        NewlineEscape();
        w := w + "\\n";
        done := done + ['\n'];
      }
      ghost var before := done;
      var text := WriteLine(skip, lines[lIdx], done);
      w := w + text;
      done := before + Drop(skip, lines[lIdx]);
    }
    assert lines[..|lines|] == lines;
    w := w + "\"";
  }

  lemma EscapeNothing()
    ensures EscapeAll("") == ""
  {
  }

  lemma NewlineEscape()
    ensures Escape('\n') == "\\n"
  {
  }

  /** The loop over the bytes of a line, from `skip` on. */
  method WriteLine(skip: nat, line: string, ghost done: string) returns (text: string)
    requires AllBytes(line) && AllBytes(done)
    ensures AllBytes(done + Drop(skip, line)) && EscapeAll(done + Drop(skip, line)) == EscapeAll(done) + text
  {
    hide EscapeAll;
    text := "";
    DropBytes(skip, line);
    ghost var rest := Drop(skip, line);
    assert done + rest[..0] == done;
    var i := skip;
    while i < |line|
      invariant skip <= i && (i <= |line| || i == skip)
      invariant var n := if i <= |line| then i - skip else 0;
        AllBytes(done + rest[..n]) && EscapeAll(done + rest[..n]) == EscapeAll(done) + text
    {
      var c := line[i];
      assert c in line && rest[i - skip] == c;
      var e := WriteByte(c);
      EscapeStep(done + rest[..i - skip], c);
      assert done + rest[..i - skip + 1] == done + rest[..i - skip] + [c];
      text := text + e;
      i := i + 1;
    }
    assert rest[..|rest|] == rest;
  }

  method WriteByte(c: char) returns (e: string)
    requires IsByte(c)
    ensures e == Escape(c)
  {
    match c {
      case '\n' => e := "\\n";
      case '\r' => e := "\\r";
      case '\t' => e := "\\t";
      case '"' => e := "\\\"";
      case '\\' => e := "\\\\";
      case _ =>
        if IsPrint(c) {
          e := [c];
        } else {
          e := "\\" + [OctalDigit(c as int / 64), OctalDigit(c as int / 8 % 8), OctalDigit(c as int % 8)];
        }
    }
  }

  /** The literal stands for the lines with the dropped white space gone, joined by newlines. */
  lemma LiteralStandsFor(skip: nat, lines: seq<string>, rest: string)
    requires ByteLines(lines)
    ensures AllBytes(Joined(skip, lines))
    ensures Unescape(EscapeAll(Joined(skip, lines)) + "\"" + rest) == Some((Joined(skip, lines), rest))
  {
    JoinedBytes(skip, lines);
    hide EscapeAll, Joined;
    UnescapeAll(Joined(skip, lines), "\"" + rest);
    assert ("\"" + rest)[1..] == rest;
    assert Joined(skip, lines) + "" == Joined(skip, lines);
    assert EscapeAll(Joined(skip, lines)) + ("\"" + rest) == EscapeAll(Joined(skip, lines)) + "\"" + rest;
  }

  // ----- Parsing -----

  function TrimAll(lines: seq<string>): (r: seq<string>)
    ensures |r| == |lines| && forall i | 0 <= i < |r| :: r[i] == TrimNewline(lines[i])
  {
    seq(|lines|, i requires 0 <= i < |lines| => TrimNewline(lines[i]))
  }

  /** What a heredoc of these lines is replaced with. */
  function Literal(lines: seq<string>): (r: string)
    requires ByteLines(lines)
  {
    var skip := if lines == [] then 0 else |Dropped(lines)|;
    TrimmedBytes(lines);
    JoinedBytes(skip, TrimAll(lines));
    "\"" + EscapeAll(Joined(skip, TrimAll(lines))) + "\""
  }

  lemma TrimmedBytes(lines: seq<string>)
    requires ByteLines(lines)
    ensures ByteLines(TrimAll(lines))
  {
    forall line | line in TrimAll(lines) ensures AllBytes(line) {
      var i :| 0 <= i < |lines| && line == TrimNewline(lines[i]);
      assert lines[i] in lines;
      assert forall c | c in line :: c in lines[i];
    }
  }

  /** Where the terminator is. */
  function EndOf(lines: seq<string>, word: string): (k: nat)
    ensures k <= |lines| && (k < |lines| ==> Ends(lines[k], word)) && forall i | 0 <= i < k :: !Ends(lines[i], word)
  {
    if lines == [] || Ends(lines[0], word) then 0 else 1 + EndOf(lines[1..], word)
  }

  /** The whole text: every heredoc, up to its terminator, is replaced by a literal, and everything else
      is kept. None is the error: a heredoc without terminator. */
  function Rewritten(lines: seq<string>): Option<string>
    requires ByteLines(lines)
    decreases |lines|
  {
    if lines == [] then Some("")
    else
      match StartOf(lines[0])
      case None => Follow(lines[0], Rewritten(lines[1..]))
      case Some((prefix, word)) =>
        var k := EndOf(lines[1..], word);
        if k == |lines| - 1 then None
        else
          var rest := lines[k + 2..];
          Follow(prefix + Literal(lines[1..k + 1]) + if rest == [] then "" else "\n", Rewritten(rest))
  }

  function Follow(before: string, r: Option<string>): Option<string> {
    match r
    case None => None
    case Some(after) => Some(before + after)
  }

  /** Text without the start of a heredoc is not changed. */
  lemma {:induction false} NoStartUnchanged(lines: seq<string>)
    requires ByteLines(lines) && forall line | line in lines :: StartOf(line).None?
    ensures Rewritten(lines) == Some(Concat(lines))
    decreases |lines|
  {
    if lines != [] {
      assert lines[0] in lines && forall line | line in lines[1..] :: line in lines;
      hide StartOf;
      NoStartUnchanged(lines[1..]);
    }
  }

  // ----- The scanner -----

  lemma FollowTwice(a: string, b: string, r: Option<string>)
    ensures Follow(a, Follow(b, r)) == Follow(a + b, r)
    ensures Follow("", r) == r
  {
    if r.Some? {
      assert a + (b + r.value) == (a + b) + r.value;
      assert "" + r.value == r.value;
    }
  }

  lemma BytesOf(lines: seq<string>, n: nat)
    requires ByteLines(lines) && n <= |lines|
    ensures ByteLines(lines[n..]) && ByteLines(lines[..n])
  {
  }

  /** Outside a heredoc, before line n. */
  ghost predicate Outside(lines: seq<string>, n: nat, needNL: bool, out: string)
    requires ByteLines(lines)
  {
    && n <= |lines| && ByteLines(lines[n..])
    && Rewritten(lines) == Follow(out + if needNL && n < |lines| then "\n" else "", Rewritten(lines[n..]))
  }

  /** In the heredoc that starts at line st, before line n. */
  ghost predicate Inside(lines: seq<string>, st: nat, n: nat, word: string, findLead: bool, lead: string,
                         buf: seq<string>, out: string)
    requires ByteLines(lines)
  {
    && st < n <= |lines| && ByteLines(lines[st..])
    && StartOf(lines[st]).Some? && StartOf(lines[st]).value.1 == word
    && (forall i | st < i < n :: !Ends(lines[i], word))
    && findLead == (st + 1 == n) && (!findLead ==> lead == Dropped(lines[st + 1..n]))
    && buf == TrimAll(lines[st + 1..n])
    && exists before ::
         out == before + StartOf(lines[st]).value.0 && Rewritten(lines) == Follow(before, Rewritten(lines[st..]))
  }

  lemma PlainLine(lines: seq<string>, n: nat, needNL: bool, out: string)
    requires ByteLines(lines) && Outside(lines, n, needNL, out) && n < |lines| && StartOf(lines[n]).None?
    ensures Outside(lines, n + 1, false, out + (if needNL then "\n" else "") + lines[n])
  {
    hide StartOf;
    BytesOf(lines, n + 1);
    assert lines[n..][0] == lines[n] && lines[n..][1..] == lines[n + 1..];
    var nl := if needNL then "\n" else "";
    FollowTwice(out + nl, lines[n], Rewritten(lines[n + 1..]));
    assert out + nl + lines[n] + "" == out + nl + lines[n];
  }

  lemma StartLine(lines: seq<string>, n: nat, needNL: bool, out: string, findLead: bool, lead: string)
    requires ByteLines(lines) && Outside(lines, n, needNL, out) && n < |lines| && StartOf(lines[n]).Some? && findLead
    ensures var (prefix, word) := StartOf(lines[n]).value;
      Inside(lines, n, n + 1, word, findLead, lead, [], out + (if needNL then "\n" else "") + prefix)
  {
    hide StartOf, Rewritten;
    assert lines[n + 1..n + 1] == [];
  }

  lemma MoreLine(lines: seq<string>, st: nat, n: nat, word: string, findLead: bool, lead: string, buf: seq<string>,
                 out: string)
    requires ByteLines(lines) && Inside(lines, st, n, word, findLead, lead, buf, out)
    requires n < |lines| && !Ends(lines[n], word)
    ensures var line := lines[n];
      var lead' := if findLead then Lead(line) else if Blank(line) then lead else CommonPrefix(lead, Lead(line));
      Inside(lines, st, n + 1, word, false, lead', buf + [TrimNewline(line)], out)
  {
    hide StartOf, Rewritten, Ends, Lead, TrimNewline;
    var body := lines[st + 1..n + 1];
    assert body == lines[st + 1..n] + [lines[n]];
    assert body[..|body| - 1] == lines[st + 1..n];
    assert TrimAll(body) == TrimAll(lines[st + 1..n]) + [TrimNewline(lines[n])];
  }

  lemma {:induction false} EndIs(lines: seq<string>, word: string, k: nat)
    requires k <= |lines| && (forall i | 0 <= i < k :: !Ends(lines[i], word)) && (k < |lines| ==> Ends(lines[k], word))
    ensures EndOf(lines, word) == k
  {
    if k > 0 {
      EndIs(lines[1..], word, k - 1);
    }
  }

  /** A heredoc at the front, up to its terminator. */
  lemma RewrittenStart(at: seq<string>, k: nat, prefix: string, word: string)
    requires ByteLines(at) && k + 1 < |at| && StartOf(at[0]) == Some((prefix, word)) && EndOf(at[1..], word) == k
    ensures ByteLines(at[1..k + 1]) && ByteLines(at[k + 2..])
    ensures Rewritten(at)
         == Follow(prefix + Literal(at[1..k + 1]) + if at[k + 2..] == [] then "" else "\n", Rewritten(at[k + 2..]))
  {
    hide StartOf, Ends, EndOf, Literal, Follow, ByteLines;
    BytesOf(at, k + 1);
    BytesOf(at[..k + 1], 1);
    assert at[..k + 1][1..] == at[1..k + 1];
    BytesOf(at, k + 2);
  }

  lemma EndLine(lines: seq<string>, st: nat, n: nat, word: string, findLead: bool, lead: string, buf: seq<string>,
                out: string)
    requires ByteLines(lines) && Inside(lines, st, n, word, findLead, lead, buf, out)
    requires n < |lines| && Ends(lines[n], word)
    ensures ByteLines(lines[st + 1..n]) && Outside(lines, n + 1, true, out + Literal(lines[st + 1..n]))
  {
    hide StartOf, Ends, EndOf, Literal, Rewritten;
    var at := lines[st..];
    EndIs(at[1..], word, n - st - 1);
    var prefix := StartOf(lines[st]).value.0;
    RewrittenStart(at, n - st - 1, prefix, word);
    assert at[1..n - st] == lines[st + 1..n] && at[n - st + 1..] == lines[n + 1..];
    var before :| out == before + prefix && Rewritten(lines) == Follow(before, Rewritten(at));
    Together(before, prefix, Literal(lines[st + 1..n]), if lines[n + 1..] == [] then "" else "\n",
             Rewritten(lines[n + 1..]));
  }

  lemma Together(before: string, prefix: string, literal: string, nl: string, r: Option<string>)
    ensures Follow(before, Follow(prefix + literal + nl, r)) == Follow(before + prefix + literal + nl, r)
  {
    FollowTwice(before, prefix + literal + nl, r);
    assert before + (prefix + literal + nl) == before + prefix + literal + nl;
  }

  lemma NoEnd(lines: seq<string>, st: nat, word: string, findLead: bool, lead: string, buf: seq<string>, out: string)
    requires ByteLines(lines) && Inside(lines, st, |lines|, word, findLead, lead, buf, out)
    ensures Rewritten(lines).None?
  {
    hide StartOf, Ends;
    var at := lines[st..];
    EndIs(at[1..], word, |lines| - st - 1);
  }

  lemma SplitBytes(text: string)
    requires AllBytes(text)
    ensures ByteLines(SplitAfter(text))
    decreases |text|
  {
    var i := FirstNewline(text);
    if i < |text| {
      assert AllBytes(text[..i + 1]) && AllBytes(text[i + 1..]);
      SplitBytes(text[i + 1..]);
    }
  }

  /** ParseMultilineStrings: None is its error. */
  method ParseMultilineStrings(text: string) returns (r: Option<string>)
    requires AllBytes(text)
    ensures ByteLines(SplitAfter(text)) && r == Rewritten(SplitAfter(text))
  {
    hide *;
    SplitBytes(text);
    var lines := SplitAfter(text);
    var terminator := "";
    var needNL, findLead := false, true;
    var leadingSpace := "";
    var mlineBuf: seq<string> := [];
    var outBuf := "";
    ghost var st := 0;
    Beginning(lines);
    for n := 0 to |lines|
      invariant terminator == "" ==> Outside(lines, n, needNL, outBuf) && findLead && mlineBuf == []
      invariant terminator != "" ==>
        Inside(lines, st, n, terminator, findLead, leadingSpace, mlineBuf, outBuf) && !needNL
    {
      var line := lines[n];
      if terminator == "" {
        if StartOf(line).None? {
          PlainLine(lines, n, needNL, outBuf);
        } else {
          StartLine(lines, n, needNL, outBuf, findLead, leadingSpace);
        }
        if needNL {
          outBuf := outBuf + "\n";
          needNL := false;
        } else {
          NoMore(outBuf);
        }
        var mtch := StartOf(line);
        if mtch.Some? {
          WordNotEmpty(line);
          outBuf := outBuf + mtch.value.0;
          terminator := mtch.value.1;
          st := n;
        } else {
          outBuf := outBuf + line;
        }
      } else if Ends(line, terminator) {
        EndLine(lines, st, n, terminator, findLead, leadingSpace, mlineBuf, outBuf);
        LiteralIs(lines, st, n, terminator, findLead, leadingSpace, mlineBuf, outBuf);
        var literal := WriteProtoStringLines(|leadingSpace|, mlineBuf);
        outBuf := outBuf + literal;
        findLead, terminator, needNL, mlineBuf := true, "", true, [];
      } else {
        MoreLine(lines, st, n, terminator, findLead, leadingSpace, mlineBuf, outBuf);
        if findLead {
          findLead := false;
          leadingSpace := FindLeftWhitespace(line);
        } else {
          var lead := FindLeftWhitespace(line);
          BlankIs(line);
          if |lead| != |line| {
            leadingSpace := FindBytewiseLCP(leadingSpace, lead);
          }
        }
        mlineBuf := mlineBuf + [TrimNewline(line)];
      }
    }
    if terminator != "" {
      NoEnd(lines, st, terminator, findLead, leadingSpace, mlineBuf, outBuf);
      return None;
    }
    Ending(lines, needNL, outBuf);
    return Some(outBuf);
  }

  lemma NoMore(out: string)
    ensures out + "" == out
  {
  }

  lemma BlankIs(line: string)
    ensures Blank(line) <==> |Lead(line)| == |line|
  {
  }

  lemma WordNotEmpty(line: string)
    ensures StartOf(line).Some? ==> StartOf(line).value.1 != ""
  {
  }

  lemma Beginning(lines: seq<string>)
    requires ByteLines(lines)
    ensures Outside(lines, 0, false, "")
  {
    assert lines[0..] == lines && "" + "" == "";
    FollowTwice("", "", Rewritten(lines));
    hide Rewritten;
  }

  lemma Ending(lines: seq<string>, needNL: bool, out: string)
    requires ByteLines(lines) && Outside(lines, |lines|, needNL, out)
    ensures Rewritten(lines) == Some(out)
  {
    assert lines[|lines|..] == [] && out + "" == out;
  }

  /** The buffer written is the literal, whatever is left over in leadingSpace when there are no lines. */
  lemma LiteralIs(lines: seq<string>, st: nat, n: nat, word: string, findLead: bool, lead: string, buf: seq<string>,
                  out: string)
    requires ByteLines(lines) && Inside(lines, st, n, word, findLead, lead, buf, out) && ByteLines(lines[st + 1..n])
    ensures ByteLines(buf) && AllBytes(Joined(|lead|, buf))
    ensures Literal(lines[st + 1..n]) == "\"" + EscapeAll(Joined(|lead|, buf)) + "\""
  {
    hide StartOf, Rewritten, Ends, EscapeAll;
    TrimmedBytes(lines[st + 1..n]);
    JoinedBytes(|lead|, buf);
  }
}
