/** Strings as the programs see them: byte-wise order, decimal spelling, joining and splitting. */
module Text {

  import opened Ints

  datatype Option<+T> = None | Some(value: T)

  /** Text without NUL: a command line argument, or the body of a literal the Go scanner accepts. */
  type CString = s: string | '\0' !in s

  /** Go's `<` on strings. */
  predicate Less(a: string, b: string) {
    if b == "" then false
    else if a == "" then true
    else a[0] < b[0] || (a[0] == b[0] && Less(a[1..], b[1..]))
  }

  lemma {:induction false} LessTrichotomy(a: string, b: string)
    ensures Less(a, b) ==> a != b && !Less(b, a)
    ensures !Less(a, b) && !Less(b, a) ==> a == b
  {
    if a != "" && b != "" {
      LessTrichotomy(a[1..], b[1..]);
      assert a == [a[0]] + a[1..] && b == [b[0]] + b[1..];
    }
  }

  /** The first byte that differs is smaller, or there is none and a is shorter. */
  ghost predicate FirstDifference(a: string, b: string) {
    exists k | 0 <= k <= |a| && k < |b| :: a[..k] == b[..k] && (k == |a| || a[k] < b[k])
  }

  lemma {:induction false} LessExactly(a: string, b: string)
    ensures Less(a, b) <==> FirstDifference(a, b)
  {
    if b != "" {
      if a == "" || a[0] < b[0] {
        assert a[..0] == b[..0];
      } else {
        LessExactly(a[1..], b[1..]);
        if Less(a, b) {
          var k :| 0 <= k <= |a[1..]| && k < |b[1..]| && a[1..][..k] == b[1..][..k]
            && (k == |a[1..]| || a[1..][k] < b[1..][k]);
          assert a[..k + 1] == [a[0]] + a[1..][..k] && b[..k + 1] == [b[0]] + b[1..][..k];
        }
        if FirstDifference(a, b) {
          var k :| 0 <= k <= |a| && k < |b| && a[..k] == b[..k] && (k == |a| || a[k] < b[k]);
          assert k > 0 && a[..k][0] == b[..k][0];
          assert a[1..][..k - 1] == a[..k][1..] && b[1..][..k - 1] == b[..k][1..];
        }
      }
    }
  }

  lemma {:induction false} LessTransitive(a: string, b: string, c: string)
    requires Less(a, b) && Less(b, c)
    ensures Less(a, c)
  {
    if a != "" && a[0] == b[0] && b[0] == c[0] {
      LessTransitive(a[1..], b[1..], c[1..]);
    }
  }

  /** Strictly increasing: a sorted list without repetitions. */
  ghost predicate Sorted(s: seq<string>) {
    forall i, j | 0 <= i < j < |s| :: Less(s[i], s[j])
  }

  lemma SortedDistinct(s: seq<string>, i: nat, j: nat)
    requires Sorted(s) && i < |s| && j < |s| && s[i] == s[j]
    ensures i == j
  {
    LessTrichotomy(s[i], s[j]);
  }

  /** White space in Unicode. */
  predicate IsSpaceCharacter(c: int) {
    || 9 <= c <= 13 || c == 32 || c == 0x85 || c == 0xA0 || c == 0x1680 || 0x2000 <= c <= 0x200A
    || c == 0x2028 || c == 0x2029 || c == 0x202F || c == 0x205F || c == 0x3000
  }

  // ----- Decimal numbers -----

  predicate IsDigit(c: char) {
    '0' <= c <= '9'
  }

  function DigitChar(d: int): (c: char)
    requires 0 <= d < 10
    ensures IsDigit(c) && c as int - '0' as int == d
  {
    ('0' as int + d) as char
  }

  function DecNat(n: nat): (s: string)
    ensures s != "" && forall c | c in s :: IsDigit(c)
  {
    if n < 10 then [DigitChar(n)] else DecNat(n / 10) + [DigitChar(n % 10)]
  }

  /** strconv.FormatInt(i, 10), also `%d` and `%v` of an integer. */
  function Dec(i: int): (s: string)
    ensures s != ""
  {
    if i < 0 then "-" + DecNat(-i) else DecNat(i)
  }

  function ParseDigits(s: string): (r: Option<nat>) {
    if s == "" || !IsDigit(s[|s| - 1]) then None
    else
      var d := s[|s| - 1] as int - '0' as int;
      if |s| == 1 then Some(d)
      else
        match ParseDigits(s[..|s| - 1])
        case None => None
        case Some(n) => Some(10 * n + d)
  }

  /** strconv.ParseInt in base 10 with the range of the wanted width. */
  function ParseInt(s: string, lo: int, hi: int): (r: Option<int>)
    ensures r.Some? ==> lo <= r.value <= hi
  {
    var negative := s != "" && s[0] == '-';
    var digits := if s != "" && (s[0] == '-' || s[0] == '+') then s[1..] else s;
    match ParseDigits(digits)
    case None => None
    case Some(n) =>
      var i: int := if negative then -(n as int) else n as int;
      if lo <= i <= hi then Some(i) else None
  }

  function Atoi(s: string): (r: Option<int>) {
    ParseInt(s, MIN_INT64, MAX_INT64)
  }

  /** strconv.ParseUint in base 10: no sign is allowed. */
  function ParseUint(s: string, hi: int): (r: Option<int>)
    ensures r.Some? ==> 0 <= r.value <= hi
  {
    match ParseDigits(s)
    case None => None
    case Some(n) => if n <= hi then Some(n) else None
  }

  lemma {:induction false} ParseDigitsDec(n: nat)
    ensures ParseDigits(DecNat(n)) == Some(n)
  {
    if n >= 10 {
      ParseDigitsDec(n / 10);
      var s := DecNat(n);
      assert s[..|s| - 1] == DecNat(n / 10);
    }
  }

  /** Reading a printed integer gives it back, exactly when it fits the width. */
  lemma ParseIntDec(i: int, lo: int, hi: int)
    ensures ParseInt(Dec(i), lo, hi) == if lo <= i <= hi then Some(i) else None
  {
    ParseDigitsDec(if i < 0 then -i else i);
    if i >= 0 {
      assert IsDigit(Dec(i)[0]);
    } else {
      assert Dec(i)[1..] == DecNat(-i);
    }
  }

  predicate AllDigits(s: string) {
    forall i | 0 <= i < |s| :: '0' <= s[i] <= '9'
  }

  function PowerOfTen(k: nat): nat {
    if k == 0 then 1 else 10 * PowerOfTen(k - 1)
  }

  /** The number that digits stand for, place by place. */
  function NumberOf(s: string): int
    requires AllDigits(s)
  {
    if s == "" then 0 else (s[0] as int - '0' as int) * PowerOfTen(|s| - 1) + NumberOf(s[1..])
  }

  lemma {:induction false} NumberOfSnoc(s: string, c: char)
    requires '0' <= c <= '9' && AllDigits(s)
    ensures AllDigits(s + [c]) && NumberOf(s + [c]) == 10 * NumberOf(s) + (c as int - '0' as int)
  {
    var t := s + [c];
    if s == "" {
      assert t[1..] == "" && t == [c];
      assert NumberOf([]) == 0;
    } else {
      assert t[1..] == s[1..] + [c];
      NumberOfSnoc(s[1..], c);
      TenTimes(s[0] as int - '0' as int, |s| - 1);
    }
  }

  lemma TenTimes(d: int, k: nat)
    ensures d * PowerOfTen(k + 1) == 10 * (d * PowerOfTen(k))
  {
  }

  /** Texts of digits are read as their number, and nothing else is. */
  lemma {:induction false} ParseDigitsExact(s: string)
    ensures if s != "" && AllDigits(s) then ParseDigits(s).Some? && ParseDigits(s).value == NumberOf(s)
            else ParseDigits(s) == None
  {
    if s != "" {
      var front, c := s[..|s| - 1], s[|s| - 1];
      assert s == front + [c];
      ParseDigitsExact(front);
      if AllDigits(s) {
        NumberOfSnoc(front, c);
      }
    }
  }

  /** A number with a sign in front, or with none. */
  ghost predicate Numeral(s: string, i: int) {
    if s != "" && s[0] == '-' then s[1..] != "" && AllDigits(s[1..]) && i == -NumberOf(s[1..])
    else if s != "" && s[0] == '+' then s[1..] != "" && AllDigits(s[1..]) && i == NumberOf(s[1..])
    else s != "" && AllDigits(s) && i == NumberOf(s)
  }

  /** Exactly these are read, if they are in the range. */
  lemma ParseIntExact(s: string, lo: int, hi: int, i: int)
    ensures ParseInt(s, lo, hi) == Some(i) <==> Numeral(s, i) && lo <= i <= hi
  {
    ParseDigitsExact(if s != "" && (s[0] == '-' || s[0] == '+') then s[1..] else s);
  }

  lemma ParseUintExact(s: string, hi: int, i: int)
    ensures ParseUint(s, hi) == Some(i) <==> s != "" && AllDigits(s) && i == NumberOf(s) && i <= hi
  {
    ParseDigitsExact(s);
  }

  lemma DecInjective(i: int, j: int)
    requires Dec(i) == Dec(j)
    ensures i == j
  {
    var lo, hi := if i < j then i else j, if i < j then j else i;
    ParseIntDec(i, lo, hi);
    ParseIntDec(j, lo, hi);
  }

  // ----- Joining and splitting -----

  lemma ConcatAssociative<T>(a: seq<T>, b: seq<T>, c: seq<T>)
    ensures (a + b) + c == a + (b + c)
  {
  }

  /** strings.Join with a one-character separator. */
  function Join(parts: seq<string>, sep: char): string {
    if parts == [] then ""
    else if |parts| == 1 then parts[0]
    else parts[0] + [sep] + Join(parts[1..], sep)
  }

  /** strings.Split with a one-character separator. */
  function Split(s: string, sep: char): (parts: seq<string>)
    ensures parts != []
  {
    if s == "" then [""]
    else if s[0] == sep then [""] + Split(s[1..], sep)
    else
      var rest := Split(s[1..], sep);
      [[s[0]] + rest[0]] + rest[1..]
  }

  ghost predicate AllFree(parts: seq<string>, sep: char) {
    forall i | 0 <= i < |parts| :: sep !in parts[i]
  }

  lemma {:induction false} SplitPart(p: string, tail: string, sep: char)
    requires sep !in p
    ensures Split(p, sep) == [p]
    ensures Split(p + [sep] + tail, sep) == [p] + Split(tail, sep)
  {
    if p == "" {
      assert p + [sep] + tail == [sep] + tail;
    } else {
      SplitPart(p[1..], tail, sep);
      assert (p + [sep] + tail)[1..] == p[1..] + [sep] + tail;
      assert p == [p[0]] + p[1..];
    }
  }

  lemma JoinStep(parts: seq<string>, sep: char)
    requires parts != []
    ensures Join(parts, sep) == if |parts| == 1 then parts[0] else parts[0] + [sep] + Join(parts[1..], sep)
    ensures parts == [parts[0]] + parts[1..]
  {
  }

  lemma {:induction false} SplitJoin(parts: seq<string>, sep: char)
    requires parts != [] && AllFree(parts, sep)
    ensures Split(Join(parts, sep), sep) == parts
  {
    hide Split, Join;
    JoinStep(parts, sep);
    if |parts| == 1 {
      SplitPart(parts[0], "", sep);
    } else {
      assert AllFree(parts[1..], sep);
      SplitJoin(parts[1..], sep);
      SplitPart(parts[0], Join(parts[1..], sep), sep);
    }
  }
}
