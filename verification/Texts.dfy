/** The string functions that internal/install/install.go relies on: strings.Fields, Split, Join, Trim and
    TrimSpace, strconv.Itoa and Atoi. A string is its code points. */
module Texts {
  import opened Bytes

  /** unicode.IsSpace. */
  predicate IsSpace(c: char) {
    var n := c as int;
    || 9 <= n <= 13 || n == 32 || n == 0x85 || n == 0xA0 || n == 0x1680 || 0x2000 <= n <= 0x200A
    || n == 0x2028 || n == 0x2029 || n == 0x202F || n == 0x205F || n == 0x3000
  }

  predicate IsQuote(c: char) {
    c == '"' || c == '\''
  }

  predicate Word(s: string) {
    s != [] && forall c :: c in s ==> !IsSpace(c)
  }

  predicate Words(fields: seq<string>) {
    forall i :: 0 <= i < |fields| ==> Word(fields[i])
  }

  /** How many characters come before the first space. */
  function WordLength(s: string): (n: nat)
    ensures n <= |s|
    ensures forall i :: 0 <= i < n ==> !IsSpace(s[i])
    ensures n < |s| ==> IsSpace(s[n])
  {
    if s == [] || IsSpace(s[0]) then 0 else 1 + WordLength(s[1..])
  }

  function Fields(s: string): seq<string>
    decreases |s|
  {
    if s == [] then []
    else if IsSpace(s[0]) then Fields(s[1..])
    else [s[..WordLength(s)]] + Fields(s[WordLength(s)..])
  }

  function Join(parts: seq<string>, separator: char): string {
    if parts == [] then []
    else if |parts| == 1 then parts[0]
    else parts[0] + [separator] + Join(parts[1..], separator)
  }

  function Split(s: string, separator: char): (parts: seq<string>)
    ensures parts != []
  {
    if s == [] then [[]]
    else
      var rest := Split(s[1..], separator);
      if s[0] == separator then [[]] + rest else [[s[0]] + rest[0]] + rest[1..]
  }

  function TrimLeft(s: string, cut: char -> bool): string {
    if s != [] && cut(s[0]) then TrimLeft(s[1..], cut) else s
  }

  function TrimRight(s: string, cut: char -> bool): string {
    if s != [] && cut(s[|s| - 1]) then TrimRight(s[..|s| - 1], cut) else s
  }

  function TrimSpace(s: string): string {
    TrimLeft(TrimRight(s, IsSpace), IsSpace)
  }

  function TrimQuotes(s: string): string {
    TrimLeft(TrimRight(s, IsQuote), IsQuote)
  }

  // --- Fields and Join ---

  lemma {:induction false} FieldsAreWords(s: string)
    ensures Words(Fields(s))
    decreases |s|
  {
    if s != [] {
      if IsSpace(s[0]) {
        FieldsAreWords(s[1..]);
      } else {
        var n := WordLength(s);
        FieldsAreWords(s[n..]);
        assert forall c :: c in s[..n] ==> !IsSpace(c);
      }
    }
  }

  lemma {:induction false} WordLengthStops(s: string, rest: string)
    requires rest == [] || IsSpace(rest[0])
    ensures WordLength(s + rest) == WordLength(s)
  {
    if s == [] {
      assert s + rest == rest;
    } else {
      assert (s + rest)[1..] == s[1..] + rest;
      if !IsSpace(s[0]) {
        WordLengthStops(s[1..], rest);
      }
    }
  }

  /** A space separates what is before it from what is after it. */
  lemma {:induction false} FieldsAroundSpace(a: string, space: char, b: string)
    requires IsSpace(space)
    ensures Fields(a + [space] + b) == Fields(a) + Fields(b)
    decreases |a|
  {
    var s := a + [space] + b;
    if a == [] {
      assert s[1..] == b;
    } else if IsSpace(a[0]) {
      assert s[1..] == a[1..] + [space] + b;
      FieldsAroundSpace(a[1..], space, b);
    } else {
      var n := WordLength(a);
      Associates(a, [space], b);
      WordLengthStops(a, [space] + b);
      assert s[..n] == a[..n];
      assert s[n..] == a[n..] + [space] + b;
      FieldsAroundSpace(a[n..], space, b);
      Associates([a[..n]], Fields(a[n..]), Fields(b));
    }
  }

  lemma {:induction false} WordIsWhole(w: string)
    requires forall c :: c in w ==> !IsSpace(c)
    ensures WordLength(w) == |w|
  {
    if w != [] {
      assert w[0] in w;
      WordIsWhole(w[1..]);
    }
  }

  lemma OneWord(w: string)
    requires Word(w)
    ensures Fields(w) == [w]
  {
    WordIsWhole(w);
    assert w[0] in w;
    assert w[..|w|] == w && w[|w|..] == [];
  }

  lemma {:induction false} FieldsInvertsJoin(fields: seq<string>)
    requires Words(fields)
    ensures Fields(Join(fields, ' ')) == fields
  {
    if |fields| == 1 {
      OneWord(fields[0]);
    } else if fields != [] {
      OneWord(fields[0]);
      FieldsAroundSpace(fields[0], ' ', Join(fields[1..], ' '));
      FieldsInvertsJoin(fields[1..]);
    }
  }

  lemma EndsOfSum(a: string, b: string)
    requires a != [] && b != []
    ensures (a + b)[0] == a[0] && (a + b)[|a + b| - 1] == b[|b| - 1]
  {
  }

  /** A joined line begins and ends with the ends of its fields. */
  lemma {:induction false} EndsOfJoin(fields: seq<string>)
    requires Words(fields) && fields != []
    ensures Join(fields, ' ') != []
    ensures Join(fields, ' ')[0] == fields[0][0]
    ensures Join(fields, ' ')[|Join(fields, ' ')| - 1] == fields[|fields| - 1][|fields[|fields| - 1]| - 1]
  {
    if |fields| > 1 {
      var rest := Join(fields[1..], ' ');
      EndsOfJoin(fields[1..]);
      assert fields[1..][|fields| - 2] == fields[|fields| - 1];
      hide Join;
      EndsOfSum(fields[0] + [' '], rest);
    }
  }

  /** How many characters are not spaces. */
  function Weight(s: string): nat {
    if s == [] then 0 else (if IsSpace(s[0]) then 0 else 1) + Weight(s[1..])
  }

  function TotalLength(fields: seq<string>): nat {
    if fields == [] then 0 else |fields[0]| + TotalLength(fields[1..])
  }

  lemma {:induction false} WeightAdds(a: string, b: string)
    ensures Weight(a + b) == Weight(a) + Weight(b)
  {
    if a == [] {
      assert a + b == b;
    } else {
      assert (a + b)[1..] == a[1..] + b;
      WeightAdds(a[1..], b);
    }
  }

  lemma {:induction false} WeightOfWord(w: string)
    requires forall c :: c in w ==> !IsSpace(c)
    ensures Weight(w) == |w|
  {
    if w != [] {
      assert w[0] in w;
      WeightOfWord(w[1..]);
    }
  }

  lemma {:induction false} FieldsKeepWeight(s: string)
    ensures TotalLength(Fields(s)) == Weight(s)
    decreases |s|
  {
    if s != [] {
      if IsSpace(s[0]) {
        FieldsKeepWeight(s[1..]);
      } else {
        var n := WordLength(s);
        assert s == s[..n] + s[n..];
        WeightAdds(s[..n], s[n..]);
        WeightOfWord(s[..n]);
        FieldsKeepWeight(s[n..]);
        assert ([s[..n]] + Fields(s[n..]))[1..] == Fields(s[n..]);
      }
    }
  }

  // --- Trim ---

  lemma {:induction false} TrimRightIsLighter(s: string)
    ensures Weight(TrimRight(s, IsQuote)) <= Weight(s)
    ensures s != [] && IsQuote(s[|s| - 1]) ==> Weight(TrimRight(s, IsQuote)) < Weight(s)
    decreases |s|
  {
    if s != [] && IsQuote(s[|s| - 1]) {
      var n := |s| - 1;
      assert s == s[..n] + [s[n]];
      WeightAdds(s[..n], [s[n]]);
      TrimRightIsLighter(s[..n]);
    }
  }

  lemma {:induction false} TrimLeftIsLighter(s: string)
    ensures Weight(TrimLeft(s, IsQuote)) <= Weight(s)
    ensures s != [] && IsQuote(s[0]) ==> Weight(TrimLeft(s, IsQuote)) < Weight(s)
    decreases |s|
  {
    if s != [] && IsQuote(s[0]) {
      TrimLeftIsLighter(s[1..]);
    }
  }

  /** Trimming leaves a string alone exactly when neither of its ends is a quote. */
  lemma TrimQuotesIsLighter(s: string)
    ensures TrimQuotes(s) == s <==> s == [] || (!IsQuote(s[0]) && !IsQuote(s[|s| - 1]))
    ensures TrimQuotes(s) != s ==> Weight(TrimQuotes(s)) < Weight(s)
  {
    TrimRightIsLighter(s);
    TrimLeftIsLighter(TrimRight(s, IsQuote));
  }

  /** Trimming on the right does not reach past a character that is kept. */
  lemma {:induction false} TrimRightStops(a: string, stop: char, b: string, cut: char -> bool)
    requires !cut(stop)
    ensures TrimRight(a + [stop] + b, cut) == a + [stop] + TrimRight(b, cut)
    decreases |b|
  {
    var s := a + [stop] + b;
    if b == [] {
      assert s == a + [stop];
      assert s == a + [stop] + [];
    } else if cut(b[|b| - 1]) {
      var b' := b[..|b| - 1];
      assert s[..|s| - 1] == a + [stop] + b';
      TrimRightStops(a, stop, b', cut);
    }
  }

  // --- Split and Join ---

  lemma {:induction false} SplitOfOne(part: string, separator: char)
    requires separator !in part
    ensures Split(part, separator) == [part]
  {
    if part != [] {
      SplitOfOne(part[1..], separator);
      assert [part[0]] + part[1..] == part;
    }
  }

  lemma {:induction false} SplitAround(part: string, separator: char, rest: string)
    requires separator !in part
    ensures Split(part + [separator] + rest, separator) == [part] + Split(rest, separator)
  {
    var s := part + [separator] + rest;
    if part == [] {
      assert s[1..] == rest;
    } else {
      assert s[1..] == part[1..] + [separator] + rest;
      SplitAround(part[1..], separator, rest);
      assert [part[0]] + part[1..] == part;
    }
  }

  lemma {:induction false} SplitInvertsJoin(parts: seq<string>, separator: char)
    requires parts != [] && forall i :: 0 <= i < |parts| ==> separator !in parts[i]
    ensures Split(Join(parts, separator), separator) == parts
  {
    if |parts| == 1 {
      SplitOfOne(parts[0], separator);
    } else {
      SplitAround(parts[0], separator, Join(parts[1..], separator));
      SplitInvertsJoin(parts[1..], separator);
    }
  }

  // --- Numbers ---

  const MAX_INT := 0x7FFF_FFFF_FFFF_FFFF

  /** A user id that Go's int can hold. */
  type Uid = n: int | 0 <= n <= 0x7FFF_FFFF_FFFF_FFFF witness 0

  predicate IsDigit(c: char) {
    '0' <= c <= '9'
  }

  function DigitValue(c: char): nat
    requires IsDigit(c)
  {
    c as int - '0' as int
  }

  function Digit(n: nat): (c: char)
    requires n < 10
    ensures IsDigit(c) && DigitValue(c) == n
  {
    ('0' as int + n) as char
  }

  predicate Digits(s: string) {
    s != [] && forall c :: c in s ==> IsDigit(c)
  }

  function Itoa(n: nat): (s: string)
    ensures Digits(s)
  {
    if n < 10 then [Digit(n)] else Itoa(n / 10) + [Digit(n % 10)]
  }

  function Value(s: string): nat
    requires forall c :: c in s ==> IsDigit(c)
  {
    if s == [] then 0 else 10 * Value(s[..|s| - 1]) + DigitValue(s[|s| - 1])
  }

  /** strconv.Atoi: an optional sign, digits, and no more than an int can hold. */
  function Atoi(s: string): Option<int> {
    var digits := if s != [] && (s[0] == '+' || s[0] == '-') then s[1..] else s;
    if !Digits(digits) then None
    else
      var n: int := Value(digits);
      if s[0] == '-' then if n <= MAX_INT + 1 then Some(-n) else None
      else if n <= MAX_INT then Some(n) else None
  }

  lemma {:induction false} ValueOfItoa(n: nat)
    ensures Value(Itoa(n)) == n
  {
    if n < 10 {
      assert Itoa(n)[..0] == [];
    } else {
      ValueOfItoa(n / 10);
      assert Itoa(n)[..|Itoa(n)| - 1] == Itoa(n / 10);
    }
  }

  lemma DigitsStayAsTheyAre(s: string)
    requires Digits(s)
    ensures TrimSpace(s) == s && Word(s) && ',' !in s
    ensures s[0] != '+' && s[0] != '-'
  {
    assert s[0] in s && s[|s| - 1] in s;
  }

  lemma AtoiInvertsItoa(n: Uid)
    ensures Atoi(TrimSpace(Itoa(n))) == Some(n)
  {
    DigitsStayAsTheyAre(Itoa(n));
    ValueOfItoa(n);
  }

  /** Digits are read as their number, with a sign or without, if an int can hold it; nothing else is read. */
  lemma AtoiReadsNumbers(s: string)
    ensures Atoi(s).Some? <==>
              || (Digits(s) && Value(s) <= MAX_INT)
              || (s != [] && s[0] == '+' && Digits(s[1..]) && Value(s[1..]) <= MAX_INT)
              || (s != [] && s[0] == '-' && Digits(s[1..]) && Value(s[1..]) <= MAX_INT + 1)
    ensures Digits(s) && Atoi(s).Some? ==> Atoi(s).value == Value(s)
    ensures s != [] && s[0] == '+' && Atoi(s).Some? ==> Atoi(s).value == Value(s[1..])
    ensures s != [] && s[0] == '-' && Atoi(s).Some? ==> Value(s[1..]) == -Atoi(s).value
  {
    if s != [] {
      assert s[0] in s;
    }
  }

  lemma {:induction false} LeadingZeros(s: string)
    requires forall c :: c in s ==> IsDigit(c)
    ensures Value(['0'] + s) == Value(s)
  {
    var t := ['0'] + s;
    if s == [] {
      assert t[..|t| - 1] == [];
    } else {
      assert t[..|t| - 1] == ['0'] + s[..|s| - 1];
      LeadingZeros(s[..|s| - 1]);
    }
  }

  // --- Trimming ---

  predicate All(s: string, p: char -> bool) {
    forall i :: 0 <= i < |s| ==> p(s[i])
  }

  /** Trimming takes exactly what is to be cut off either end. */
  lemma TrimmedAround(before: string, s: string, after: string, cut: char -> bool)
    requires All(before, cut) && All(after, cut)
    requires s != [] ==> !cut(s[0]) && !cut(s[|s| - 1])
    ensures TrimLeft(TrimRight(before + s + after, cut), cut) == s
  {
    TrimmedRight(before + s, after, cut);
    if s == [] {
      assert before + s == before && [] + before == before;
      TrimmedRight([], before, cut);
    } else {
      assert (before + s)[|before + s| - 1] == s[|s| - 1];
      assert TrimRight(before + s, cut) == before + s;
      TrimmedLeft(before, s, cut);
    }
  }

  lemma {:induction false} TrimmedRight(s: string, after: string, cut: char -> bool)
    requires All(after, cut)
    ensures TrimRight(s + after, cut) == TrimRight(s, cut)
    decreases |after|
  {
    if after == [] {
      assert s + after == s;
    } else {
      assert (s + after)[..|s + after| - 1] == s + after[..|after| - 1];
      TrimmedRight(s, after[..|after| - 1], cut);
    }
  }

  lemma {:induction false} TrimmedLeft(before: string, s: string, cut: char -> bool)
    requires All(before, cut) && (s != [] ==> !cut(s[0]))
    ensures TrimLeft(before + s, cut) == s
    decreases |before|
  {
    if before == [] {
      assert before + s == s;
    } else {
      assert (before + s)[1..] == before[1..] + s;
      TrimmedLeft(before[1..], s, cut);
    }
  }
}
