/** Python conditions turned into Go expressions (client/isolate/format.go:926-1010). */
module IsolatePython {

  import opened Text
  import opened IsolateValues
  import opened IsolateCondition

  // ----- Literals -----

  /** One character of a quoted text, or a backslash and the character it escapes. */
  datatype Item = Plain(c: char) | Escaped(c: char)

  function Spell(item: Item): string {
    match item
    case Plain(c) => [c]
    case Escaped(c) => ['\\', c]
  }

  function SpellAll(items: seq<Item>): string {
    if items == [] then "" else Spell(items[0]) + SpellAll(items[1..])
  }

  /** The rest of a quoted text: its items up to the closing quote, and what follows it. */
  function ReadItems(text: string, quote: char): (r: Option<(seq<Item>, string)>)
    ensures r.Some? ==> |r.value.1| < |text|
  {
    if text == "" then None
    else if text[0] == quote then Some(([], text[1..]))
    else if text[0] == '\\' && |text| == 1 then None
    else
      var item := if text[0] == '\\' then Escaped(text[1]) else Plain(text[0]);
      match ReadItems(text[|Spell(item)|..], quote)
      case None => None
      case Some((items, rest)) => Some(([item] + items, rest))
  }

  /** What an item stands for: a character, or an escape both languages give the same meaning. */
  datatype Denoted = Char(c: char) | Escape(c: char)

  function Denote(item: Item): Denoted {
    if item.Plain? || item.c in "\\\'\"" then Char(item.c) else Escape(item.c)
  }

  /** A Go literal is quoted with `"`, and has no escape for `'`. */
  function GoItem(item: Item): Item {
    if item == Plain('"') then Escaped('"')
    else if item == Escaped('\'') then Plain('\'')
    else item
  }

  function GoItems(items: seq<Item>): (r: seq<Item>)
    ensures |r| == |items| && forall i | 0 <= i < |r| :: r[i] == GoItem(items[i])
  {
    seq(|items|, i requires 0 <= i < |items| => GoItem(items[i]))
  }

  /** The translated literal has the same text, escapes every inner quote, and nothing Go rejects. */
  lemma GoItemsMeanTheSame(items: seq<Item>, i: nat)
    requires i < |items|
    ensures Denote(GoItems(items)[i]) == Denote(items[i])
    ensures GoItems(items)[i] != Plain('"') && GoItems(items)[i] != Escaped('\'')
  {
  }

  /** Items that can stand between two quotes. */
  ghost predicate Quotable(items: seq<Item>, quote: char) {
    forall item | item in items :: item.Plain? ==> item.c != quote && item.c != '\\'
  }

  /** Reading goes over one known item at a time, up to the closing quote. */
  lemma ReadItem(item: Item, text: string, quote: char)
    requires quote != '\\' && Quotable([item], quote)
    ensures ReadItems(Spell(item) + text, quote) == Onto([item], ReadItems(text, quote))
  {
    assert item in [item];
    var whole := Spell(item) + text;
    assert whole[|Spell(item)|..] == text;
    assert whole[0] == Spell(item)[0];
  }

  lemma ReadEnd(rest: string, quote: char)
    ensures quote != '\\' ==> ReadItems([quote] + rest, quote) == Some(([], rest))
    ensures ReadItems("", quote) == None
    ensures quote != '\\' ==> ReadItems("\\", quote) == None
  {
    assert ([quote] + rest)[1..] == rest;
  }

  function Onto(items: seq<Item>, r: Option<(seq<Item>, string)>): Option<(seq<Item>, string)> {
    match r
    case None => None
    case Some((more, rest)) => Some((items + more, rest))
  }

  lemma OntoFirst(item: Item, items: seq<Item>, r: Option<(seq<Item>, string)>)
    ensures Onto([item], Onto(items, r)) == Onto([item] + items, r)
    ensures Onto([], r) == r
  {
    if r.Some? {
      assert [item] + (items + r.value.0) == ([item] + items) + r.value.0;
      assert [] + r.value.0 == r.value.0;
    }
  }

  lemma SpellFirst(items: seq<Item>, text: string)
    requires items != []
    ensures SpellAll(items) + text == Spell(items[0]) + (SpellAll(items[1..]) + text)
    ensures items == [items[0]] + items[1..]
  {
    SpellAllStep(items);
    hide Spell, SpellAll;
    ConcatAssociative(Spell(items[0]), SpellAll(items[1..]), text);
  }

  lemma SpellAllStep(items: seq<Item>)
    requires items != []
    ensures SpellAll(items) == Spell(items[0]) + SpellAll(items[1..])
  {
  }

  /** What reading makes of a text when its first items are known. */
  lemma {:induction false} ReadOn(items: seq<Item>, text: string, quote: char)
    requires Quotable(items, quote) && quote != '\\'
    ensures ReadItems(SpellAll(items) + text, quote) == Onto(items, ReadItems(text, quote))
  {
    hide ReadItems, Onto, Spell;
    if items == [] {
      assert SpellAll(items) + text == text;
      OntoFirst(Plain('a'), [], ReadItems(text, quote));
    } else {
      QuotableTail(items, quote);
      SpellFirst(items, text);
      ReadOn(items[1..], text, quote);
      ReadItem(items[0], SpellAll(items[1..]) + text, quote);
      OntoFirst(items[0], items[1..], ReadItems(text, quote));
    }
  }

  lemma QuotableTail(items: seq<Item>, quote: char)
    requires Quotable(items, quote) && items != []
    ensures Quotable(items[1..], quote) && Quotable([items[0]], quote)
  {
    assert items[0] in items;
  }

  /** Reading is the inverse of spelling. */
  lemma ReadSpelled(items: seq<Item>, quote: char, rest: string)
    requires Quotable(items, quote) && quote != '\\'
    ensures ReadItems(SpellAll(items) + [quote] + rest, quote) == Some((items, rest))
  {
    hide ReadItems;
    ReadOn(items, [quote] + rest, quote);
    ReadEnd(rest, quote);
    assert SpellAll(items) + [quote] + rest == SpellAll(items) + ([quote] + rest);
    assert items + [] == items;
  }

  lemma ReadStep(text: string, quote: char)
    requires text != "" && text[0] != quote && quote != '\\' && ReadItems(text, quote).Some?
    ensures text[0] == '\\' ==> |text| > 1
    ensures var item := if text[0] == '\\' then Escaped(text[1]) else Plain(text[0]);
      && text == Spell(item) + text[|Spell(item)|..]
      && ReadItems(text[|Spell(item)|..], quote).Some?
      && ReadItems(text, quote) == Onto([item], ReadItems(text[|Spell(item)|..], quote))
  {
  }

  lemma {:induction false} ReadIsSpelled(text: string, quote: char)
    requires quote != '\\' && ReadItems(text, quote).Some?
    ensures var (items, rest) := ReadItems(text, quote).value;
      Quotable(items, quote) && text == SpellAll(items) + [quote] + rest
  {
    if text[0] != quote {
      ReadStep(text, quote);
      hide ReadItems, Spell, SpellAll;
      var item := if text[0] == '\\' then Escaped(text[1]) else Plain(text[0]);
      var tail := text[|Spell(item)|..];
      ReadIsSpelled(tail, quote);
      var (items, rest) := ReadItems(tail, quote).value;
      SpellFirst([item] + items, [quote] + rest);
      assert ([item] + items)[1..] == items;
      ConcatAssociative(SpellAll(items), [quote], rest);
      ConcatAssociative(SpellAll([item] + items), [quote], rest);
    }
  }

  lemma GoQuotable(items: seq<Item>, quote: char)
    requires Quotable(items, quote) && (quote == '"' || quote == '\'')
    ensures Quotable(GoItems(items), '"')
  {
    forall item | item in GoItems(items) ensures item.Plain? ==> item.c != '"' && item.c != '\\' {
      var i :| 0 <= i < |items| && GoItems(items)[i] == item;
      assert items[i] in items;
    }
  }

  lemma {:induction false} SpellSnoc(items: seq<Item>, item: Item)
    ensures SpellAll(items + [item]) == SpellAll(items) + Spell(item)
  {
    if items == [] {
      assert [] + [item] == [item] && [item][1..] == [];
      assert SpellAll([item]) == Spell(item) + "";
    } else {
      SpellAllStep(items);
      SpellAllStep(items + [item]);
      hide Spell, SpellAll;
      SpellSnoc(items[1..], item);
      assert (items + [item])[1..] == items[1..] + [item];
      ConcatAssociative(Spell(items[0]), SpellAll(items[1..]), Spell(item));
    }
  }

  lemma GoItemsSnoc(items: seq<Item>, item: Item)
    ensures GoItems(items + [item]) == GoItems(items) + [GoItem(item)]
  {
  }

  /** pythonToGoString: None is the error "failed to parse Condition string". */
  method PythonToGoString(left0: string) returns (r: Option<(string, string)>)
    requires left0 != "" && (left0[0] == '"' || left0[0] == '\'')
    ensures r == match ReadItems(left0[1..], left0[0])
                 case None => None
                 case Some((items, rest)) => Some(("\"" + SpellAll(GoItems(items)) + "\"", rest))
  {
    hide ReadItems, SpellAll, GoItems;
    var quoteRune := left0[0];
    var left := left0[1..];
    var escaped := false;
    var goRunes := "\"";
    ghost var items: seq<Item> := [];
    SpellNothing();
    for i := 0 to |left|
      invariant Scanned(left, i, quoteRune, escaped, items, goRunes)
    {
      var c := left[i];
      Closing(left, i, quoteRune, escaped, items, goRunes);
      if c == quoteRune && !escaped {
        goRunes := goRunes + ['"'];
        assert goRunes == "\"" + SpellAll(GoItems(items)) + "\"";
        return Some((goRunes, left[i + 1..]));
      }
      NextRune(left, i, quoteRune, escaped, items, goRunes);
      if c == '\'' && escaped {
        goRunes := goRunes[..|goRunes| - 1];
      } else if c == '"' && !escaped {
        goRunes := goRunes + ['\\'];
      }
      goRunes := goRunes + [c];
      if escaped || c != '\\' {
        items := items + [if escaped then Escaped(c) else Plain(c)];
      }
      if c == '\\' {
        escaped := !escaped;
      } else {
        escaped := false;
      }
    }
    Unclosed(left, quoteRune, escaped, items, goRunes);
    return None;
  }

  function Pending(escaped: bool): string {
    if escaped then "\\" else ""
  }

  /** The first i characters are some items and maybe a backslash, and goRunes is their translation. */
  ghost predicate Scanned(left: string, i: nat, quote: char, escaped: bool, items: seq<Item>, goRunes: string) {
    && i <= |left| && Quotable(items, quote)
    && left[..i] == SpellAll(items) + Pending(escaped)
    && goRunes == "\"" + SpellAll(GoItems(items)) + Pending(escaped)
  }

  lemma SpellNothing()
    ensures SpellAll([]) == "" && SpellAll(GoItems([])) == ""
  {
  }

  lemma NextRune(left: string, i: nat, quote: char, escaped: bool, items: seq<Item>, goRunes: string)
    requires i < |left| && Scanned(left, i, quote, escaped, items, goRunes)
    requires escaped || left[i] != quote
    ensures var c := left[i];
      var item := if escaped then Escaped(c) else Plain(c);
      var kept := if c == '\'' && escaped then goRunes[..|goRunes| - 1]
                  else if c == '"' && !escaped then goRunes + ['\\'] else goRunes;
      if escaped || c != '\\' then Scanned(left, i + 1, quote, false, items + [item], kept + [c])
      else Scanned(left, i + 1, quote, true, items, kept + [c])
  {
    hide ReadItems, SpellAll, GoItems;
    var c := left[i];
    var item := if escaped then Escaped(c) else Plain(c);
    SpellSnoc(items, item);
    SpellSnoc(GoItems(items), GoItem(item));
    GoItemsSnoc(items, item);
    assert left[..i + 1] == left[..i] + [c];
  }

  lemma Closing(left: string, i: nat, quote: char, escaped: bool, items: seq<Item>, goRunes: string)
    requires i < |left| && Scanned(left, i, quote, escaped, items, goRunes)
    requires quote != '\\'
    ensures !escaped && left[i] == quote ==> ReadItems(left, quote) == Some((items, left[i + 1..]))
  {
    hide ReadItems, SpellAll, GoItems;
    if !escaped && left[i] == quote {
      ReadSpelled(items, quote, left[i + 1..]);
      assert SpellAll(items) + Pending(escaped) == SpellAll(items);
      assert left == left[..i] + [quote] + left[i + 1..];
    }
  }

  lemma Unclosed(left: string, quote: char, escaped: bool, items: seq<Item>, goRunes: string)
    requires Scanned(left, |left|, quote, escaped, items, goRunes) && quote != '\\'
    ensures ReadItems(left, quote).None?
  {
    hide ReadItems, SpellAll, GoItems;
    ReadOn(items, Pending(escaped), quote);
    ReadEnd("", quote);
    assert left[..|left|] == left;
  }

  // ----- The value of a literal -----

  function DenoteAll(items: seq<Item>): (r: seq<Denoted>)
    ensures |r| == |items|
  {
    seq(|items|, i requires 0 <= i < |items| => Denote(items[i]))
  }

  function Chars(s: string): (r: seq<Denoted>)
    ensures |r| == |s|
  {
    seq(|s|, i requires 0 <= i < |s| => Char(s[i]))
  }

  lemma {:induction false} SpelledLength(items: seq<Item>)
    ensures |SpellAll(items)| >= |items|
    ensures |SpellAll(items)| == |items| <==> forall i | 0 <= i < |items| :: items[i].Plain?
    ensures (forall i | 0 <= i < |items| :: items[i].Plain?) ==>
              forall i | 0 <= i < |items| :: SpellAll(items)[i] == items[i].c
  {
    if items != [] {
      SpelledLength(items[1..]);
      assert forall i | 0 <= i < |items| - 1 :: items[1..][i] == items[i + 1];
    }
  }

  /** verifyIDEqualValue compares with the spelling of the Go literal, not with the text it stands
      for: the two agree exactly when the Go literal has no backslash. */
  lemma SpellingIsTextExactly(items: seq<Item>)
    ensures Chars(SpellAll(GoItems(items))) == DenoteAll(items) <==>
            forall i | 0 <= i < |items| :: items[i] != Plain('"') && (items[i].Plain? || items[i].c == '\'')
  {
    var go := GoItems(items);
    SpelledLength(go);
    assert (forall i | 0 <= i < |go| :: go[i].Plain?) <==>
           forall i | 0 <= i < |items| :: items[i] != Plain('"') && (items[i].Plain? || items[i].c == '\'');
    if forall i | 0 <= i < |go| :: go[i].Plain? {
      assert Chars(SpellAll(go)) == DenoteAll(items);
    } else {
      assert |Chars(SpellAll(go))| != |DenoteAll(items)|;
    }
  }

  lemma CharsInjective(a: string, b: string)
    requires Chars(a) == Chars(b)
    ensures a == b
  {
    assert |a| == |Chars(a)| == |b|;
    forall i | 0 <= i < |a| ensures a[i] == b[i] {
      assert Chars(a)[i] == Chars(b)[i];
    }
  }

  /** So comparing with a literal for the text t holds for the value t only if the Go literal has no
      backslash: it must not contain `"`, nor any escape but that of `'`. */
  lemma LiteralMatchesText(x: string, items: seq<Item>, t: CString)
    requires DenoteAll(items) == Chars(t) && '\0' !in SpellAll(GoItems(items))
    ensures Holds(Binary(Eql, Ident(x), StringLit(SpellAll(GoItems(items)))), y => StrValue(t)) <==>
            forall i | 0 <= i < |items| :: items[i] != Plain('"') && (items[i].Plain? || items[i].c == '\'')
  {
    hide GoItems, SpellAll, DenoteAll, Chars;
    SpellingIsTextExactly(items);
    CompareZero(StrValue(t), StrValue(SpellAll(GoItems(items))));
    if Chars(SpellAll(GoItems(items))) == Chars(t) {
      CharsInjective(SpellAll(GoItems(items)), t);
    }
  }

  // ----- Operators -----

  predicate IsWord(c: char) {
    '0' <= c <= '9' || 'A' <= c <= 'Z' || 'a' <= c <= 'z' || c == '_'
  }

  predicate WordAt(s: string, i: int) {
    0 <= i < |s| && IsWord(s[i])
  }

  /** `\b` of a regular expression. */
  predicate Boundary(s: string, i: int) {
    WordAt(s, i - 1) != WordAt(s, i)
  }

  /** The regular expression `\bw\b` matches at i. */
  predicate MatchAt(s: string, i: nat, w: string) {
    i + |w| <= |s| && s[i..i + |w|] == w && Boundary(s, i) && Boundary(s, i + |w|)
  }

  /** ReplaceAllString, from position i on. */
  function Replace(s: string, i: nat, w: string, op: string): string
    requires i <= |s| && w != ""
    decreases |s| - i
  {
    if i == |s| then ""
    else if MatchAt(s, i, w) then op + Replace(s, i + |w|, w, op)
    else [s[i]] + Replace(s, i + 1, w, op)
  }

  /** The end of the run of word characters, or of other characters, that position i is in. */
  function RunEnd(s: string, i: nat): (e: nat)
    requires i < |s|
    ensures i < e <= |s| && (forall x | i <= x < e :: IsWord(s[x]) == IsWord(s[i]))
    ensures e < |s| ==> IsWord(s[e]) != IsWord(s[i])
    decreases |s| - i
  {
    if i + 1 == |s| || IsWord(s[i + 1]) != IsWord(s[i]) then i + 1 else RunEnd(s, i + 1)
  }

  /** Every run that is the word w replaced, and everything else left alone. */
  function ByRuns(s: string, i: nat, w: string, op: string): string
    requires i <= |s|
    decreases |s| - i
  {
    if i == |s| then ""
    else
      var e := RunEnd(s, i);
      (if s[i..e] == w then op else s[i..e]) + ByRuns(s, e, w, op)
  }

  ghost predicate RunStart(s: string, i: nat) {
    0 < i < |s| ==> IsWord(s[i - 1]) != IsWord(s[i])
  }

  /** Nothing matches inside a run, or at the start of one that is not the word itself. */
  lemma NoMatchInside(s: string, i: nat, start: nat, w: string)
    requires start < |s| && start <= i < RunEnd(s, start) && RunStart(s, start)
    requires w != "" && forall c | c in w :: IsWord(c)
    ensures MatchAt(s, i, w) ==> i == start && s[start..RunEnd(s, start)] == w
  {
    if MatchAt(s, i, w) {
      var e := RunEnd(s, start);
      assert forall x | 0 <= x < |w| :: s[i + x] == w[x] && IsWord(s[i + x]);
      assert IsWord(s[i]);
      assert i + |w| <= e;
      assert i + |w| >= e;
    }
  }

  lemma MatchRun(s: string, start: nat, w: string)
    requires start < |s| && RunStart(s, start) && s[start..RunEnd(s, start)] == w
    requires w != "" && forall c | c in w :: IsWord(c)
    ensures MatchAt(s, start, w)
  {
    assert s[start] == w[0];
  }

  lemma SliceFirst(s: string, i: nat, e: nat)
    requires i < e <= |s|
    ensures s[i..e] == [s[i]] + s[i + 1..e]
  {
  }

  lemma ReplaceCopies(s: string, i: nat, w: string, op: string)
    requires i < |s| && w != "" && !MatchAt(s, i, w)
    ensures Replace(s, i, w, op) == [s[i]] + Replace(s, i + 1, w, op)
  {
  }

  lemma {:induction false} CopyRun(s: string, i: nat, start: nat, w: string, op: string)
    requires start < |s| && start <= i <= RunEnd(s, start) && RunStart(s, start)
    requires w != "" && forall c | c in w :: IsWord(c)
    requires i > start || s[start..RunEnd(s, start)] != w
    ensures Replace(s, i, w, op) == s[i..RunEnd(s, start)] + Replace(s, RunEnd(s, start), w, op)
    decreases RunEnd(s, start) - i
  {
    hide MatchAt, Replace, RunEnd, RunStart;
    var e := RunEnd(s, start);
    if i < e {
      NoMatchInside(s, i, start, w);
      ReplaceCopies(s, i, w, op);
      CopyRun(s, i + 1, start, w, op);
      SliceFirst(s, i, e);
      ConcatAssociative([s[i]], s[i + 1..e], Replace(s, e, w, op));
    }
  }

  /** The expression replaces exactly the words: the maximal runs of word characters equal to w. */
  lemma {:induction false} ReplaceByRuns(s: string, i: nat, w: string, op: string)
    requires i <= |s| && RunStart(s, i) && w != "" && forall c | c in w :: IsWord(c)
    ensures Replace(s, i, w, op) == ByRuns(s, i, w, op)
    decreases |s| - i
  {
    if i < |s| {
      var e := RunEnd(s, i);
      ReplaceByRuns(s, e, w, op);
      if s[i..e] == w {
        MatchRun(s, i, w);
      } else {
        CopyRun(s, i, i, w, op);
      }
    }
  }

  /** `and` and `or` become `&&` and `||`. */
  function Operators(code: string): string {
    Replace(Replace(code, 0, "and", "&&"), 0, "or", "||")
  }

  /** Exactly the words `and` are replaced, and then exactly the words `or`. */
  lemma OperatorsByRuns(code: string)
    ensures Operators(code) == ByRuns(ByRuns(code, 0, "and", "&&"), 0, "or", "||")
  {
    assert forall c | c in "and" :: IsWord(c);
    assert forall c | c in "or" :: IsWord(c);
    ReplaceByRuns(code, 0, "and", "&&");
    ReplaceByRuns(Replace(code, 0, "and", "&&"), 0, "or", "||");
  }

  /** What words are made of: digits, capital and small letters, and the underscore, in ASCII. */
  lemma WordCharacters(c: char)
    ensures var code := c as int;
      IsWord(c) <==> 48 <= code <= 57 || 65 <= code <= 90 || 97 <= code <= 122 || code == 95
  {
  }

  lemma {:induction false} ReplaceKeeps(s: string, i: nat, w: string, op: string, c: char)
    requires i <= |s| && w != "" && op != ""
    ensures i < |s| ==> Replace(s, i, w, op) != ""
    ensures c !in s && c !in op ==> c !in Replace(s, i, w, op)
    decreases |s| - i
  {
    if i < |s| {
      ReplaceKeeps(s, if MatchAt(s, i, w) then i + |w| else i + 1, w, op, c);
    }
  }

  lemma OperatorsKeep(code: string, c: char)
    requires c != '&' && c != '|' && c !in code
    ensures c !in Operators(code)
    ensures Operators(code) == "" <==> code == ""
  {
    ReplaceKeeps(code, 0, "and", "&&", c);
    ReplaceKeeps(Replace(code, 0, "and", "&&"), 0, "or", "||", c);
  }

  // ----- Conditions -----

  predicate IsQuote(c: char) {
    c == '"' || c == '\''
  }

  datatype Segment = Code(text: string) | Literal(quote: char, items: seq<Item>)

  /** Where the first quote is. */
  function FirstQuote(text: string): (i: nat)
    ensures i <= |text| && (i < |text| ==> IsQuote(text[i])) && forall x | 0 <= x < i :: !IsQuote(text[x])
  {
    if text == "" || IsQuote(text[0]) then 0 else 1 + FirstQuote(text[1..])
  }

  function Prepend(first: seq<Segment>, r: Option<seq<Segment>>): Option<seq<Segment>> {
    match r
    case None => None
    case Some(more) => Some(first + more)
  }

  /** How a scanner of either language sees a condition: code and literals in turn. */
  function Segments(text: string): Option<seq<Segment>>
    decreases |text|
  {
    if text == "" then Some([])
    else
      var q := FirstQuote(text);
      if q == |text| then Some([Code(text)])
      else
        match ReadItems(text[q + 1..], text[q])
        case None => None
        case Some((items, rest)) => Prepend([Code(text[..q]), Literal(text[q], items)], Segments(rest))
  }

  lemma PrependTwice(first: seq<Segment>, next: seq<Segment>, r: Option<seq<Segment>>)
    ensures Prepend(first, Prepend(next, r)) == Prepend(first + next, r)
    ensures Prepend([], r) == r
  {
    if r.Some? {
      assert first + (next + r.value) == (first + next) + r.value;
      assert [] + r.value == r.value;
    }
  }

  function Go(segment: Segment): Segment {
    match segment
    case Code(text) => Code(Operators(text))
    case Literal(_, items) => Literal('"', GoItems(items))
  }

  function GoAll(segments: seq<Segment>): (r: seq<Segment>)
    ensures |r| == |segments| && forall i | 0 <= i < |r| :: r[i] == Go(segments[i])
  {
    seq(|segments|, i requires 0 <= i < |segments| => Go(segments[i]))
  }

  function SpellSegment(segment: Segment): string {
    match segment
    case Code(text) => text
    case Literal(quote, items) => [quote] + SpellAll(items) + [quote]
  }

  function SpellSegments(segments: seq<Segment>): string {
    if segments == [] then "" else SpellSegment(segments[0]) + SpellSegments(segments[1..])
  }

  lemma SpellSegmentsStep(segments: seq<Segment>)
    ensures SpellSegments(segments)
         == if segments == [] then "" else SpellSegment(segments[0]) + SpellSegments(segments[1..])
  {
  }

  lemma {:induction false} SpellConcat(a: seq<Segment>, b: seq<Segment>)
    ensures SpellSegments(a + b) == SpellSegments(a) + SpellSegments(b)
  {
    hide SpellSegment, SpellSegments;
    SpellSegmentsStep(a);
    if a == [] {
      assert a + b == b;
    } else {
      SpellSegmentsStep(a + b);
      assert (a + b)[0] == a[0] && (a + b)[1..] == a[1..] + b;
      SpellConcat(a[1..], b);
      ConcatAssociative(SpellSegment(a[0]), SpellSegments(a[1..]), SpellSegments(b));
    }
  }

  lemma TwoSegments(code: string, quote: char, items: seq<Item>)
    ensures SpellSegments([Code(code), Literal(quote, items)]) == code + [quote] + SpellAll(items) + [quote]
    ensures SpellSegments([Code(code)]) == code
  {
    hide SpellAll;
    assert [Code(code), Literal(quote, items)][1..] == [Literal(quote, items)];
    assert [Literal(quote, items)][1..] == [] && [Code(code)][1..] == [];
    assert SpellSegments([Literal(quote, items)]) == [quote] + SpellAll(items) + [quote] + "";
  }

  /** Scanning uses up the whole text. */
  lemma {:induction false} SegmentsSpell(text: string)
    requires Segments(text).Some?
    ensures SpellSegments(Segments(text).value) == text
    decreases |text|
  {
    hide FirstQuote, GoAll, Quotable, ReadItems, SpellAll, SpellSegments;
    if text == "" {
      GoNothing();
    } else {
      var q := FirstQuote(text);
      if q == |text| {
        TwoSegments(text, '"', []);
      } else {
        ReadIsSpelled(text[q + 1..], text[q]);
        var (items, rest) := ReadItems(text[q + 1..], text[q]).value;
        SegmentsSpell(rest);
        TwoSegments(text[..q], text[q], items);
        SpellConcat([Code(text[..q]), Literal(text[q], items)], Segments(rest).value);
        Reassemble(text, q, SpellAll(items), rest);
      }
    }
  }

  lemma Reassemble(text: string, q: nat, body: string, rest: string)
    requires q < |text| && text[q + 1..] == body + [text[q]] + rest
    ensures text == text[..q] + [text[q]] + body + [text[q]] + rest
  {
    assert text == text[..q] + [text[q]] + text[q + 1..];
  }

  lemma GoTwo(code: string, quote: char, items: seq<Item>)
    ensures GoAll([Code(code), Literal(quote, items)]) == [Code(Operators(code)), Literal('"', GoItems(items))]
    ensures GoAll([Code(code)]) == [Code(Operators(code))]
  {
  }

  lemma GoConcat(a: seq<Segment>, b: seq<Segment>)
    ensures GoAll(a + b) == GoAll(a) + GoAll(b)
  {
  }

  /** The Go text is scanned as the translation of what the Python text is scanned as: no literal
      ends early, none runs on, and no operator is replaced inside one. */
  lemma {:induction false} TranslationScans(text: string)
    requires Segments(text).Some?
    ensures Segments(SpellSegments(GoAll(Segments(text).value))) == Some(GoAll(Segments(text).value))
    decreases |text|
  {
    hide FirstQuote, GoAll, GoItems, Operators, Quotable, ReadItems, SpellAll, SpellSegments;
    if text == "" {
      GoNothing();
    } else {
      var q := FirstQuote(text);
      if q == |text| {
        NoQuotes(text);
        GoTwo(text, '"', []);
        TwoSegments(Operators(text), '"', []);
      } else {
        ReadIsSpelled(text[q + 1..], text[q]);
        var (items, rest) := ReadItems(text[q + 1..], text[q]).value;
        TranslationScans(rest);
        var more := Segments(rest).value;
        NoQuotes(text[..q]);
        GoQuotable(items, text[q]);
        GoTwo(text[..q], text[q], items);
        GoConcat([Code(text[..q]), Literal(text[q], items)], more);
        TwoSegments(Operators(text[..q]), '"', GoItems(items));
        SpellConcat([Code(Operators(text[..q])), Literal('"', GoItems(items))], GoAll(more));
        ScanTwo(Operators(text[..q]), GoItems(items), SpellSegments(GoAll(more)));
      }
    }
  }

  lemma GoNothing()
    ensures GoAll([]) == [] && SpellSegments([]) == ""
  {
  }

  lemma NoQuotes(code: string)
    requires forall x | 0 <= x < |code| :: !IsQuote(code[x])
    ensures forall x | 0 <= x < |Operators(code)| :: !IsQuote(Operators(code)[x])
    ensures FirstQuote(Operators(code)) == |Operators(code)|
    ensures Operators(code) == "" <==> code == ""
  {
    OperatorsKeep(code, '"');
    OperatorsKeep(code, '\'');
    hide Operators;
    assert forall x | 0 <= x < |Operators(code)| :: Operators(code)[x] in Operators(code);
  }

  lemma ScanTwo(code: string, items: seq<Item>, rest: string)
    requires forall x | 0 <= x < |code| :: !IsQuote(code[x])
    requires Quotable(items, '"')
    ensures Segments(code + ['"'] + SpellAll(items) + ['"'] + rest)
         == Prepend([Code(code), Literal('"', items)], Segments(rest))
  {
    hide ReadItems;
    var text := code + ['"'] + SpellAll(items) + ['"'] + rest;
    assert FirstQuote(text) == |code| by { assert text[|code|] == '"'; }
    assert text[|code| + 1..] == SpellAll(items) + ['"'] + rest;
    ReadSpelled(items, '"', rest);
    assert text[..|code|] == code;
  }

  /** pythonToGoNonString. */
  method PythonToGoNonString(left: string) returns (out: string, rest: string)
    ensures out == Operators(left[..FirstQuote(left)]) && rest == left[FirstQuote(left)..]
  {
    var end := |left|;
    for i := 0 to |left|
      invariant end == |left|
      invariant forall x | 0 <= x < i :: !IsQuote(left[x])
    {
      if left[i] == '\'' || left[i] == '"' {
        end := i;
        break;
      }
    }
    return Operators(left[..end]), left[end..];
  }

  /** pythonToGoCondition: None is its error. */
  method PythonToGoCondition(pyCond: string) returns (r: Option<string>)
    ensures r == match Segments(pyCond)
                 case None => None
                 case Some(segments) => Some(SpellSegments(GoAll(segments)))
  {
    hide FirstQuote, GoAll, GoItems, Operators, ReadItems, SpellAll, SpellSegments;
    var left := pyCond;
    var out := "";
    ghost var done: seq<Segment> := [];
    GoNothing();
    PrependTwice([], [], Segments(pyCond));
    while |left| > 0
      invariant out == SpellSegments(GoAll(done))
      invariant Segments(pyCond) == Prepend(done, Segments(left))
      decreases |left|
    {
      ghost var before := left;
      ghost var q := FirstQuote(before);
      var goChunk;
      goChunk, left := PythonToGoNonString(left);
      out := out + goChunk;
      ghost var next := [Code(before)];
      if |left| != 0 {
        assert before[q..][1..] == before[q + 1..];
        var translated := PythonToGoString(left);
        if translated.None? {
          return None;
        }
        goChunk, left := translated.value.0, translated.value.1;
        out := out + goChunk;
        ghost var items := ReadItems(before[q + 1..], before[q]).value.0;
        next := [Code(before[..q]), Literal(before[q], items)];
        GoTwo(before[..q], before[q], items);
        TwoSegments(Operators(before[..q]), '"', GoItems(items));
      } else {
        assert before[..q] == before;
        assert next + [] == next;
        GoTwo(before, '"', []);
        TwoSegments(Operators(before), '"', []);
      }
      PrependTwice(done, next, Segments(left));
      GoConcat(done, next);
      SpellConcat(GoAll(done), GoAll(next));
      done := done + next;
    }
    assert done + [] == done;
    return Some(out);
  }
}
