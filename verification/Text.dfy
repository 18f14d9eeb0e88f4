/** The string operations of the Go standard library that the connector and the mock server
    rely on, with the laws the other modules need.  A Go string is a sequence of characters. */
module Text {
  datatype Option<+T> = None | Some(value: T)

  /** `sub` stands in `s` at offset `i`. */
  predicate OccursAt(s: string, sub: string, i: int) {
    0 <= i && i + |sub| <= |s| && s[i..i + |sub|] == sub
  }

  /** `strings.Contains` */
  predicate Contains(s: string, sub: string) {
    exists i | 0 <= i <= |s| :: OccursAt(s, sub, i)
  }

  /** No character of `s` is in `cs`. */
  predicate Free(s: string, cs: set<char>) {
    forall c | c in s :: c !in cs
  }

  /** Splitting at every character of `seps`: `regexp.Split` for a one-character class and
      `strings.Split` for a one-character separator. */
  function Split(s: string, seps: set<char>): (parts: seq<string>)
    ensures |parts| >= 1
  {
    if s == "" then [""] else Prepend(s[0], Split(s[1..], seps), seps)
  }

  /** One more character in front: a new empty part, or a longer first part. */
  function Prepend(c: char, parts: seq<string>, seps: set<char>): seq<string>
    requires |parts| >= 1
  {
    if c in seps then [""] + parts else [[c] + parts[0]] + parts[1..]
  }

  lemma PrependSplit(c: char, l: seq<string>, r: seq<string>, seps: set<char>)
    requires |l| >= 1
    ensures Prepend(c, l + r, seps) == Prepend(c, l, seps) + r
  {
  }

  /** No part holds a separator. */
  lemma {:induction false} SplitParts(s: string, seps: set<char>)
    ensures forall i | 0 <= i < |Split(s, seps)| :: Free(Split(s, seps)[i], seps)
  {
    if s == "" {
      assert Free("", seps);
    } else {
      SplitParts(s[1..], seps);
    }
  }

  lemma SplitFree(s: string, seps: set<char>)
    requires Free(s, seps)
    ensures Split(s, seps) == [s]
  {
    if s != "" {
      assert s[0] in s;
      assert Free(s[1..], seps);
      SplitFree(s[1..], seps);
      assert [s[0]] + s[1..] == s;
    }
  }

  /** A separator cuts: the parts of `a`, then the parts of `b`. */
  lemma {:induction false} SplitAt(a: string, c: char, b: string, seps: set<char>)
    requires c in seps
    ensures Split(a + [c] + b, seps) == Split(a, seps) + Split(b, seps)
  {
    var whole := a + [c] + b;
    if a == "" {
      assert whole[1..] == b;
    } else {
      assert whole[1..] == a[1..] + [c] + b;
      SplitAt(a[1..], c, b, seps);
      PrependSplit(a[0], Split(a[1..], seps), Split(b, seps), seps);
    }
  }

  /** The number of separators. */
  function Separators(s: string, seps: set<char>): nat {
    if s == "" then 0 else (if s[0] in seps then 1 else 0) + Separators(s[1..], seps)
  }

  lemma {:induction false} SplitCount(s: string, seps: set<char>)
    ensures |Split(s, seps)| == Separators(s, seps) + 1
  {
    if s != "" {
      SplitCount(s[1..], seps);
    }
  }

  /** A text without separators that occurs in `s` occurs in one of its parts. */
  lemma {:induction false} ContainsInPart(s: string, sub: string, seps: set<char>, i: nat) returns (k: nat)
    requires sub != "" && Free(sub, seps) && OccursAt(s, sub, i)
    ensures k < |Split(s, seps)| && Contains(Split(s, seps)[k], sub)
  {
    var rest := Split(s[1..], seps);
    assert Split(s, seps) == Prepend(s[0], rest, seps);
    if i > 0 {
      OccursLater(s, sub, i);
      k := ContainsInPart(s[1..], sub, seps, i - 1);
      if s[0] in seps {
        k := k + 1;
      } else if k == 0 {
        ContainsLonger(s[0], rest[0], sub);
      }
    } else {
      k := 0;
      SplitStart(s, sub, seps);
      var part := Split(s, seps)[0];
      assert OccursAt(part, sub, 0);
    }
  }

  lemma OccursLater(s: string, sub: string, i: nat)
    requires i > 0 && s != "" && OccursAt(s, sub, i)
    ensures OccursAt(s[1..], sub, i - 1)
  {
    assert s[1..][i - 1..i - 1 + |sub|] == s[i..i + |sub|];
  }

  lemma ContainsLonger(c: char, s: string, sub: string)
    requires Contains(s, sub)
    ensures Contains([c] + s, sub)
  {
    var i :| 0 <= i <= |s| && OccursAt(s, sub, i);
    assert ([c] + s)[i + 1..i + 1 + |sub|] == s[i..i + |sub|];
    assert OccursAt([c] + s, sub, i + 1);
  }

  lemma {:induction false} SplitStart(s: string, sub: string, seps: set<char>)
    requires Free(sub, seps) && sub <= s
    ensures sub <= Split(s, seps)[0]
  {
    if sub != "" {
      assert sub[0] in sub && s[0] == sub[0];
      assert Free(sub[1..], seps) && sub[1..] <= s[1..];
      SplitStart(s[1..], sub[1..], seps);
    }
  }

  /** `strings.Join` */
  function Join(parts: seq<string>, glue: string): string {
    if |parts| == 0 then ""
    else if |parts| == 1 then parts[0]
    else Join(parts[..|parts| - 1], glue) + glue + parts[|parts| - 1]
  }

  lemma {:induction false} JoinFirst(parts: seq<string>, glue: string)
    requires |parts| >= 2
    ensures Join(parts, glue) == parts[0] + glue + Join(parts[1..], glue)
    decreases |parts|
  {
    var n := |parts| - 1;
    if n > 1 {
      JoinFirst(parts[..n], glue);
      assert parts[..n][1..] == parts[1..][..n - 1];
    } else {
      assert parts[..1] == [parts[0]] && parts[1..] == [parts[1]];
    }
  }

  /** Splitting at one character loses nothing. */
  lemma {:induction false} JoinSplit(s: string, sep: char)
    ensures Join(Split(s, {sep}), [sep]) == s
    decreases |s|
  {
    if s != "" {
      var rest := Split(s[1..], {sep});
      JoinSplit(s[1..], sep);
      if s[0] == sep {
        JoinFirst([""] + rest, [sep]);
        assert ([""] + rest)[1..] == rest;
      } else {
        JoinLonger(s[0], rest, [sep]);
      }
      assert [s[0]] + s[1..] == s;
    }
  }

  lemma JoinLonger(c: char, parts: seq<string>, glue: string)
    requires |parts| >= 1
    ensures Join([[c] + parts[0]] + parts[1..], glue) == [c] + Join(parts, glue)
  {
    var longer := [[c] + parts[0]] + parts[1..];
    if |parts| > 1 {
      JoinFirst(parts, glue);
      JoinFirst(longer, glue);
      assert longer[1..] == parts[1..];
    }
  }

  /** `ReplaceAllString(s, "")` for a one-character class: every character of `cs` deleted. */
  function Delete(s: string, cs: set<char>): string {
    if s == "" then ""
    else if s[0] in cs then Delete(s[1..], cs)
    else [s[0]] + Delete(s[1..], cs)
  }

  lemma {:induction false} DeleteLeaves(s: string, cs: set<char>)
    ensures Free(Delete(s, cs), cs)
    ensures forall c | c in Delete(s, cs) :: c in s
  {
    if s != "" {
      DeleteLeaves(s[1..], cs);
    }
  }

  lemma DeleteFree(s: string, cs: set<char>)
    requires Free(s, cs)
    ensures Delete(s, cs) == s
  {
  }

  lemma {:induction false} DeleteConcat(a: string, b: string, cs: set<char>)
    ensures Delete(a + b, cs) == Delete(a, cs) + Delete(b, cs)
  {
    if a == "" {
      assert a + b == b;
    } else {
      assert (a + b)[1..] == a[1..] + b;
      DeleteConcat(a[1..], b, cs);
    }
  }

  lemma FreeConcat(a: string, b: string, cs: set<char>)
    ensures Free(a + b, cs) <==> Free(a, cs) && Free(b, cs)
  {
  }

  /** `strings.TrimPrefix` */
  function TrimPrefix(s: string, prefix: string): string {
    if prefix <= s then s[|prefix|..] else s
  }

  /** `strings.TrimSuffix` for a one-character suffix */
  function TrimLast(s: string, c: char): string {
    if |s| > 0 && s[|s| - 1] == c then s[..|s| - 1] else s
  }

  // ---- decimal numbers ----

  const MIN_INT64: int := -0x8000_0000_0000_0000
  const MAX_INT64: int := 0x7FFF_FFFF_FFFF_FFFF

  predicate IsDigit(c: char) { '0' <= c <= '9' }

  function DigitChar(d: nat): (c: char)
    requires d < 10
    ensures IsDigit(c) && c as int - '0' as int == d
  {
    ('0' as int + d) as char
  }

  function Digits(n: nat): (s: string)
    ensures s != "" && IsDigit(s[0])
  {
    if n < 10 then [DigitChar(n)] else Digits(n / 10) + [DigitChar(n % 10)]
  }

  lemma {:induction false} DigitsChars(n: nat)
    ensures forall c | c in Digits(n) :: IsDigit(c)
  {
    if n >= 10 {
      DigitsChars(n / 10);
    }
  }

  /** `strconv.Itoa`, and the `%d` verb */
  function Itoa(n: int): string {
    if n < 0 then "-" + Digits(-n) else Digits(n)
  }

  function DigitsValue(s: string): Option<nat> {
    if s == "" || !IsDigit(s[|s| - 1]) then None
    else
      var d := s[|s| - 1] as int - '0' as int;
      if |s| == 1 then Some(d)
      else match DigitsValue(s[..|s| - 1])
        case None => None
        case Some(v) => Some(10 * v + d)
  }

  /** An optional sign, then digits. */
  function Signed(s: string): Option<int> {
    if s == "" then None
    else
      match DigitsValue(if s[0] == '-' || s[0] == '+' then s[1..] else s)
      case None => None
      case Some(v) => Some(if s[0] == '-' then -(v as int) else v as int)
  }

  /** `strconv.Atoi` and `strconv.ParseInt(s, 10, 64)`: anything that is not a signed decimal
      number of 64 bits is an error. */
  function Atoi(s: string): Option<int> {
    match Signed(s)
    case None => None
    case Some(n) => if MIN_INT64 <= n <= MAX_INT64 then Some(n) else None
  }

  lemma {:induction false} DigitsRoundTrip(n: nat)
    ensures DigitsValue(Digits(n)) == Some(n)
  {
    if n >= 10 {
      DigitsRoundTrip(n / 10);
      var s := Digits(n);
      assert s[..|s| - 1] == Digits(n / 10);
    }
  }

  lemma SignedItoa(n: int)
    ensures Signed(Itoa(n)) == Some(n)
  {
    DigitsRoundTrip(if n < 0 then -n else n);
    if n < 0 {
      assert Itoa(n)[1..] == Digits(-n);
    }
  }

  // ---- what a decimal text is ----

  function Pow10(k: nat): nat { if k == 0 then 1 else 10 * Pow10(k - 1) }

  predicate AllDigits(s: string) { forall c | c in s :: IsDigit(c) }

  /** The number that digits write: each digit times the power of ten of its place. */
  function PlaceValue(s: string): nat
    requires AllDigits(s)
  {
    if s == "" then 0
    else
      assert s[0] in s && AllDigits(s[1..]);
      (s[0] as int - '0' as int) * Pow10(|s| - 1) + PlaceValue(s[1..])
  }

  /** `s` is the number `n` in decimal: digits, after at most one sign. */
  predicate Writes(s: string, n: int) {
    s != "" &&
    (var digits := if s[0] == '-' || s[0] == '+' then s[1..] else s;
     digits != "" && AllDigits(digits) && n == if s[0] == '-' then -(PlaceValue(digits) as int) else PlaceValue(digits) as int)
  }

  lemma {:induction false} PlaceValueLast(s: string, c: char)
    requires AllDigits(s) && IsDigit(c)
    ensures AllDigits(s + [c]) && PlaceValue(s + [c]) == 10 * PlaceValue(s) + (c as int - '0' as int)
  {
    var all := s + [c];
    if s == "" {
      assert all == [c] && PlaceValue([c][1..]) == 0;
    } else {
      assert s[0] in s;
      assert all[1..] == s[1..] + [c];
      PlaceValueLast(s[1..], c);
      var d := s[0] as int - '0' as int;
      assert Pow10(|s|) == 10 * Pow10(|s| - 1);
      assert d * Pow10(|s|) == 10 * (d * Pow10(|s| - 1));
    }
  }

  lemma AllDigitsLast(s: string, c: char)
    ensures AllDigits(s + [c]) <==> AllDigits(s) && IsDigit(c)
  {
    assert forall x | x in s :: x in s + [c];
    assert c in s + [c];
  }

  lemma DigitsValueLast(s: string, c: char)
    ensures DigitsValue(s + [c]) ==
            if !IsDigit(c) then None
            else if s == "" then Some(c as int - '0' as int)
            else if DigitsValue(s).None? then None
            else Some(10 * DigitsValue(s).value + (c as int - '0' as int))
  {
    var all := s + [c];
    assert all != "" && all[|all| - 1] == c && all[..|all| - 1] == s;
    DigitsValueFront(all, s, c);
  }

  lemma DigitsValueFront(all: string, s: string, c: char)
    requires all != "" && all[|all| - 1] == c && all[..|all| - 1] == s && (|all| == 1 <==> s == "")
    ensures DigitsValue(all) ==
            if !IsDigit(c) then None
            else if s == "" then Some(c as int - '0' as int)
            else if DigitsValue(s).None? then None
            else Some(10 * DigitsValue(s).value + (c as int - '0' as int))
  {
  }

  lemma {:induction false} DigitsValueExactly(s: string)
    ensures DigitsValue(s).Some? <==> s != "" && AllDigits(s)
    ensures s != "" && AllDigits(s) ==> DigitsValue(s) == Some(PlaceValue(s))
  {
    if s != "" {
      var front, c := s[..|s| - 1], s[|s| - 1];
      assert s == front + [c];
      DigitsValueExactly(front);
      DigitsValueLast(front, c);
      AllDigitsLast(front, c);
      if AllDigits(front) && IsDigit(c) {
        PlaceValueLast(front, c);
      }
    }
  }

  lemma SignedExactly(s: string, n: int)
    ensures Signed(s) == Some(n) <==> Writes(s, n)
  {
    if s != "" {
      DigitsValueExactly(if s[0] == '-' || s[0] == '+' then s[1..] else s);
    }
  }

  /** `Atoi` accepts exactly the decimal texts of the 64-bit integers, and gives what they write. */
  lemma AtoiExactly(s: string, n: int)
    ensures Atoi(s) == Some(n) <==> Writes(s, n) && MIN_INT64 <= n <= MAX_INT64
  {
    SignedExactly(s, n);
  }

  lemma ItoaWrites(n: int)
    ensures Writes(Itoa(n), n)
  {
    SignedItoa(n);
    SignedExactly(Itoa(n), n);
  }

  lemma AtoiItoa(n: int)
    ensures Atoi(Itoa(n)) == if MIN_INT64 <= n <= MAX_INT64 then Some(n) else None
  {
    SignedItoa(n);
  }

  lemma ItoaChars(n: int)
    ensures Itoa(n) != ""
    ensures forall c | c in Itoa(n) :: IsDigit(c) || c == '-'
  {
    DigitsChars(if n < 0 then -n else n);
  }

  lemma ItoaInjective(m: int, n: int)
    requires Itoa(m) == Itoa(n)
    ensures m == n
  {
    SignedItoa(m);
    SignedItoa(n);
  }
}
