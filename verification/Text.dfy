/** The string operations the Go sources take from `strings` and `strconv`, with the
    inverse laws that the rest of the project relies on. */
module Text {
  datatype Option<+T> = None | Some(value: T)

  /** `unicode.IsSpace`. */
  predicate IsSpace(c: char) {
    || '\t' <= c <= '\r' || c == ' ' || c == '\U{85}' || c == '\U{A0}'
    || c == '\U{1680}' || '\U{2000}' <= c <= '\U{200A}' || c == '\U{2028}'
    || c == '\U{2029}' || c == '\U{202F}' || c == '\U{205F}' || c == '\U{3000}'
  }

  predicate IsDigit(c: char) {
    '0' <= c <= '9'
  }

  predicate AllDigits(s: string) {
    forall i :: 0 <= i < |s| ==> IsDigit(s[i])
  }

  /** No character of `s` is white space, and there is at least one. */
  predicate IsWord(s: string) {
    s != [] && forall i :: 0 <= i < |s| ==> !IsSpace(s[i])
  }

  // ---- decimal numbers ----

  /** The decimal text of a number, as `%d` prints it. */
  function Digits(n: nat): (s: string)
    ensures IsWord(s) && AllDigits(s)
  {
    if n < 10 then [n as char + '0'] else Digits(n / 10) + [(n % 10) as char + '0']
  }

  function Number(s: string): nat
    requires AllDigits(s)
  {
    if s == [] then 0 else 10 * Number(s[..|s| - 1]) + (s[|s| - 1] - '0') as nat
  }

  lemma {:induction false} NumberOfDigits(n: nat)
    ensures Number(Digits(n)) == n
  {
    if n >= 10 {
      NumberOfDigits(n / 10);
      var s := Digits(n);
      assert s[..|s| - 1] == Digits(n / 10);
    }
  }

  /** Decimal text of `n`: digits that add up to it, and no leading zero. */
  predicate IsDecimal(s: string, n: nat) {
    s != "" && AllDigits(s) && Number(s) == n && (s[0] == '0' ==> |s| == 1)
  }

  lemma {:induction false} DigitsAreDecimal(n: nat)
    ensures IsDecimal(Digits(n), n)
    ensures Digits(n)[0] == '0' ==> n == 0
  {
    NumberOfDigits(n);
    if n >= 10 {
      DigitsAreDecimal(n / 10);
    }
  }

  /** Only one text is. */
  lemma {:induction false} DecimalIsUnique(s: string, t: string, n: nat)
    requires IsDecimal(s, n) && IsDecimal(t, n)
    ensures s == t
    decreases n
  {
    var a, b := s[..|s| - 1], t[..|t| - 1];
    assert Number(a) == n / 10 == Number(b);
    assert s[|s| - 1] == t[|t| - 1];
    if n >= 10 {
      DecimalFront(s, n);
      DecimalFront(t, n);
      DecimalIsUnique(a, b, n / 10);
    } else {
      SmallDecimal(s, n);
      SmallDecimal(t, n);
    }
  }

  lemma DecimalFront(s: string, n: nat)
    requires IsDecimal(s, n) && n >= 10
    ensures IsDecimal(s[..|s| - 1], n / 10)
  {
    var a := s[..|s| - 1];
    assert Number("") == 0;
    assert a != "" ==> a[0] == s[0];
  }

  lemma SmallDecimal(s: string, n: nat)
    requires IsDecimal(s, n) && n < 10
    ensures |s| == 1
  {
    var a := s[..|s| - 1];
    if |s| > 1 {
      NumberIsPositive(a);
    }
  }

  lemma {:induction false} NumberIsPositive(s: string)
    requires s != "" && AllDigits(s) && s[0] != '0'
    ensures Number(s) > 0
  {
    if |s| > 1 {
      NumberIsPositive(s[..|s| - 1]);
    }
  }

  lemma DigitsInjective(m: nat, n: nat)
    requires Digits(m) == Digits(n)
    ensures m == n
  {
    NumberOfDigits(m);
    NumberOfDigits(n);
  }

  /** `strconv.ParseInt(s, 10, 64)`: an optional sign, then digits only, then a range check. */
  function ParseInt64(s: string): (r: Option<int>)
    ensures r.Some? ==> -0x8000_0000_0000_0000 <= r.value < 0x8000_0000_0000_0000
  {
    var neg := s != [] && s[0] == '-';
    var body := if s != [] && (s[0] == '-' || s[0] == '+') then s[1..] else s;
    if body == [] || !AllDigits(body) then None
    else
      var v := if neg then 0 - Number(body) as int else Number(body) as int;
      if -0x8000_0000_0000_0000 <= v < 0x8000_0000_0000_0000 then Some(v) else None
  }

  lemma ParseOfDigits(n: nat)
    requires n < 0x8000_0000_0000_0000
    ensures ParseInt64(Digits(n)) == Some(n)
  {
    NumberOfDigits(n);
    assert IsDigit(Digits(n)[0]);
  }

  lemma ParseOfSigned(n: nat)
    ensures ParseInt64("-" + Digits(n)) == if n <= 0x8000_0000_0000_0000 then Some(0 - n as int) else None
    ensures ParseInt64("+" + Digits(n)) == ParseInt64(Digits(n)) == if n < 0x8000_0000_0000_0000 then Some(n) else None
  {
    NumberOfDigits(n);
    var d := Digits(n);
    assert IsDigit(d[0]);
    assert ("-" + d)[1..] == d && ("+" + d)[1..] == d;
  }

  // ---- splitting and joining ----

  /** `strings.Split` with a one-character separator. */
  function Split(s: string, sep: char): (parts: seq<string>)
    ensures parts != []
  {
    if s == [] then [[]]
    else
      var rest := Split(s[1..], sep);
      if s[0] == sep then [[]] + rest else [[s[0]] + rest[0]] + rest[1..]
  }

  /** `strings.Join` with a one-character separator. */
  function Join(parts: seq<string>, sep: char): string {
    if parts == [] then []
    else if |parts| == 1 then parts[0]
    else parts[0] + [sep] + Join(parts[1..], sep)
  }

  lemma {:induction false} SplitOne(p: string, sep: char)
    requires sep !in p
    ensures Split(p, sep) == [p]
  {
    if p != [] {
      SplitOne(p[1..], sep);
      assert [p[0]] + p[1..] == p;
    }
  }

  lemma {:induction false} SplitAppend(p: string, s: string, sep: char)
    requires sep !in p
    ensures Split(p + [sep] + s, sep) == [p] + Split(s, sep)
  {
    var t := p + [sep] + s;
    if p == [] {
      assert t[1..] == s;
    } else {
      assert t[1..] == p[1..] + [sep] + s;
      SplitAppend(p[1..], s, sep);
      assert [p[0]] + p[1..] == p;
    }
  }

  /** Splitting undoes joining for parts that do not hold the separator. */
  lemma {:induction false} SplitJoin(parts: seq<string>, sep: char)
    requires parts != []
    requires forall i :: 0 <= i < |parts| ==> sep !in parts[i]
    ensures Split(Join(parts, sep), sep) == parts
  {
    if |parts| == 1 {
      SplitOne(parts[0], sep);
    } else {
      SplitJoin(parts[1..], sep);
      SplitAppend(parts[0], Join(parts[1..], sep), sep);
    }
  }

  /** Joining undoes splitting, and no part holds the separator. */
  lemma {:induction false} JoinSplit(s: string, sep: char)
    ensures Join(Split(s, sep), sep) == s
    ensures forall i :: 0 <= i < |Split(s, sep)| ==> sep !in Split(s, sep)[i]
  {
    if s != [] {
      JoinSplit(s[1..], sep);
      var rest := Split(s[1..], sep);
      assert s == [s[0]] + s[1..];
      if s[0] == sep {
        assert ([[]] + rest)[1..] == rest;
      } else {
        var parts := [[s[0]] + rest[0]] + rest[1..];
        assert parts[1..] == rest[1..];
      }
    }
  }

  // ---- white space ----

  function TrimLeft(s: string): string {
    if s != [] && IsSpace(s[0]) then TrimLeft(s[1..]) else s
  }

  function TrimRight(s: string): string {
    if s != [] && IsSpace(s[|s| - 1]) then TrimRight(s[..|s| - 1]) else s
  }

  /** `strings.TrimSpace`. */
  function TrimSpace(s: string): string {
    TrimRight(TrimLeft(s))
  }

  predicate AllSpace(s: string) {
    forall i :: 0 <= i < |s| ==> IsSpace(s[i])
  }

  /** What trimming takes away is white space at the two ends, and all of it. */
  lemma TrimMeans(s: string) returns (left: string, right: string)
    ensures s == left + TrimSpace(s) + right && AllSpace(left) && AllSpace(right)
    ensures var t := TrimSpace(s); t != "" ==> !IsSpace(t[0]) && !IsSpace(t[|t| - 1])
  {
    left := TrimLeftMeans(s);
    right := TrimRightMeans(TrimLeft(s));
    var t := TrimSpace(s);
    assert TrimLeft(s) == t + right;
    assert s == left + (t + right);
    assert t != "" ==> t[0] == TrimLeft(s)[0];
  }

  lemma {:induction false} TrimLeftMeans(s: string) returns (left: string)
    ensures s == left + TrimLeft(s) && AllSpace(left)
    ensures var t := TrimLeft(s); t != "" ==> !IsSpace(t[0])
  {
    left := "";
    if s != "" && IsSpace(s[0]) {
      left := TrimLeftMeans(s[1..]);
      left := [s[0]] + left;
      assert s == [s[0]] + s[1..];
    }
  }

  lemma {:induction false} TrimRightMeans(s: string) returns (right: string)
    ensures s == TrimRight(s) + right && AllSpace(right)
    ensures var t := TrimRight(s); t != "" ==> !IsSpace(t[|t| - 1])
  {
    right := "";
    if s != "" && IsSpace(s[|s| - 1]) {
      right := TrimRightMeans(s[..|s| - 1]);
      right := right + [s[|s| - 1]];
    }
  }

  predicate HasPrefix(s: string, p: string) {
    p <= s
  }

  /** The length of the leading run of non-space characters. */
  function WordLength(s: string): (k: nat)
    ensures k <= |s|
    ensures s != [] && !IsSpace(s[0]) ==> k > 0
  {
    if s == [] || IsSpace(s[0]) then 0 else 1 + WordLength(s[1..])
  }

  /** `strings.Fields`. */
  function Fields(s: string): seq<string>
    decreases |s|
  {
    if s == [] then []
    else if IsSpace(s[0]) then Fields(s[1..])
    else [s[..WordLength(s)]] + Fields(s[WordLength(s)..])
  }

  lemma {:induction false} WordLengthAppend(w: string, s: string)
    requires forall i :: 0 <= i < |w| ==> !IsSpace(w[i])
    requires s == [] || IsSpace(s[0])
    ensures WordLength(w + s) == |w|
  {
    if w == [] {
      assert w + s == s;
    } else {
      assert (w + s)[1..] == w[1..] + s;
      WordLengthAppend(w[1..], s);
    }
  }

  /** Fields undoes joining words with a white-space separator. */
  lemma {:induction false} FieldsJoin(words: seq<string>, sep: char)
    requires IsSpace(sep)
    requires forall i :: 0 <= i < |words| ==> IsWord(words[i])
    ensures Fields(Join(words, sep)) == words
  {
    if words != [] {
      var w := words[0];
      assert IsWord(w);
      if |words| == 1 {
        WordLengthAppend(w, []);
        assert w + [] == w;
      } else {
        var rest := Join(words[1..], sep);
        var s := w + [sep] + rest;
        assert s == w + ([sep] + rest);
        WordLengthAppend(w, [sep] + rest);
        assert s[..|w|] == w && s[|w|..] == [sep] + rest;
        assert ([sep] + rest)[1..] == rest;
        FieldsJoin(words[1..], sep);
      }
    }
  }

  lemma {:induction false} JoinEnds(words: seq<string>, sep: char)
    requires words != []
    requires forall i :: 0 <= i < |words| ==> IsWord(words[i])
    ensures Join(words, sep) != []
    ensures !IsSpace(Join(words, sep)[0])
    ensures !IsSpace(Join(words, sep)[|Join(words, sep)| - 1])
  {
    assert IsWord(words[0]);
    if |words| > 1 {
      JoinEnds(words[1..], sep);
    }
  }

  /** White space separates fields, wherever and however much of it there is. */
  lemma {:induction false} FieldsAtSpace(s: string, c: char, t: string)
    requires IsSpace(c)
    ensures Fields(s + [c] + t) == Fields(s) + Fields(t)
    decreases |s|
  {
    var u := s + [c] + t;
    if s == "" {
      assert u[1..] == t;
    } else if IsSpace(s[0]) {
      assert u[1..] == s[1..] + [c] + t;
      FieldsAtSpace(s[1..], c, t);
    } else {
      var k := WordLength(s);
      WordLengthBefore(s, [c] + t);
      assert s + ([c] + t) == u;
      assert u[..k] == s[..k] && u[k..] == s[k..] + [c] + t;
      FieldsAtSpace(s[k..], c, t);
    }
  }

  lemma {:induction false} WordLengthBefore(s: string, t: string)
    requires t == "" || IsSpace(t[0])
    ensures WordLength(s + t) == WordLength(s)
  {
    if s == "" {
      assert s + t == t;
    } else {
      assert (s + t)[1..] == s[1..] + t;
      if !IsSpace(s[0]) {
        WordLengthBefore(s[1..], t);
      }
    }
  }

  lemma FieldOfWord(w: string)
    requires IsWord(w)
    ensures Fields(w) == [w]
  {
    WordLengthAppend(w, "");
    assert w + "" == w;
  }
}
