/** The JavaScript string built-ins the action relies on: `trim`, `split` on a
    one-character separator, `parseInt(s, 10)` and `JSON.stringify` of an array
    of strings. Strings are sequences of Unicode scalar values. */
module Js {
  import opened Wrappers

  // ---------------------------------------------------------------- trim

  /** The WhiteSpace and LineTerminator code points of ECMA-262: the set that
      `String.prototype.trim` removes and `parseInt` skips. */
  predicate IsSpace(c: char) {
    || c == '\t' || c == '\n' || c == '\U{B}' || c == '\U{C}' || c == '\r' || c == ' '
    || c == '\U{A0}' || c == '\U{1680}' || ('\U{2000}' <= c <= '\U{200A}')
    || c == '\U{2028}' || c == '\U{2029}' || c == '\U{202F}' || c == '\U{205F}'
    || c == '\U{3000}' || c == '\U{FEFF}'
  }

  predicate AllSpace(s: string) {
    forall k :: 0 <= k < |s| ==> IsSpace(s[k])
  }

  /** True of a string that neither starts nor ends with white space. */
  predicate Trimmed(s: string) {
    s == [] || (!IsSpace(s[0]) && !IsSpace(s[|s| - 1]))
  }

  function TrimStart(s: string): (r: string)
    ensures |r| <= |s|
  {
    if s != [] && IsSpace(s[0]) then TrimStart(s[1..]) else s
  }

  function TrimEnd(s: string): (r: string)
    ensures |r| <= |s|
  {
    if s != [] && IsSpace(s[|s| - 1]) then TrimEnd(s[..|s| - 1]) else s
  }

  /** `s.trim()`. */
  function Trim(s: string): (r: string)
    ensures |r| <= |s| && Trimmed(r)
  {
    TrimStartShape(s);
    TrimEndShape(TrimStart(s));
    TrimEnd(TrimStart(s))
  }

  /** `TrimStart` drops exactly the leading white space. */
  lemma {:induction false} TrimStartShape(s: string)
    ensures TrimStart(s) == s[|s| - |TrimStart(s)|..]
    ensures AllSpace(s[..|s| - |TrimStart(s)|])
    ensures TrimStart(s) != [] ==> !IsSpace(TrimStart(s)[0])
  {
    if s != [] && IsSpace(s[0]) {
      TrimStartShape(s[1..]);
      var r := TrimStart(s);
      assert s[|s| - |r|..] == s[1..][|s| - 1 - |r|..];
      assert s[..|s| - |r|] == [s[0]] + s[1..][..|s| - 1 - |r|];
    }
  }

  /** `TrimEnd` drops exactly the trailing white space, and keeps a first
      character that is not white space. */
  lemma {:induction false} TrimEndShape(s: string)
    ensures TrimEnd(s) == s[..|TrimEnd(s)|]
    ensures AllSpace(s[|TrimEnd(s)|..])
    ensures TrimEnd(s) != [] ==> !IsSpace(TrimEnd(s)[|TrimEnd(s)| - 1])
  {
    if s != [] && IsSpace(s[|s| - 1]) {
      TrimEndShape(s[..|s| - 1]);
      var r := TrimEnd(s);
      assert s[..|r|] == s[..|s| - 1][..|r|];
      assert s[|r|..] == s[..|s| - 1][|r|..] + [s[|s| - 1]];
    }
  }

  lemma {:induction false} TrimStartSkips(a: string, t: string)
    requires AllSpace(a)
    requires t == [] || !IsSpace(t[0])
    ensures TrimStart(a + t) == t
  {
    if a != [] {
      assert (a + t)[1..] == a[1..] + t;
      assert AllSpace(a[1..]);
      TrimStartSkips(a[1..], t);
    } else {
      assert a + t == t;
    }
  }

  lemma {:induction false} TrimEndSkips(t: string, b: string)
    requires AllSpace(b)
    requires t == [] || !IsSpace(t[|t| - 1])
    ensures TrimEnd(t + b) == t
  {
    if b != [] {
      assert (t + b)[..|t + b| - 1] == t + b[..|b| - 1];
      assert AllSpace(b[..|b| - 1]);
      TrimEndSkips(t, b[..|b| - 1]);
    } else {
      assert t + b == t;
    }
  }

  /** `trim` characterised: it removes exactly the white space around a
      trimmed middle part. */
  lemma TrimOf(a: string, m: string, b: string)
    requires AllSpace(a) && AllSpace(b) && Trimmed(m)
    ensures Trim(a + m + b) == m
  {
    if m == [] {
      assert a + m + b == (a + b) + [];
      TrimStartSkips(a + b, []);
    } else {
      assert a + m + b == a + (m + b);
      TrimStartSkips(a, m + b);
      TrimEndSkips(m, b);
    }
  }

  /** A trimmed string is its own trim; in particular `trim` is idempotent. */
  lemma TrimTrimmed(m: string)
    requires Trimmed(m)
    ensures Trim(m) == m
  {
    assert TrimStart(m) == m;
    assert TrimEnd(m) == m;
  }

  lemma TrimIdempotent(s: string)
    ensures Trim(Trim(s)) == Trim(s)
  {
    TrimTrimmed(Trim(s));
  }

  /** Two strings without outer white space joined have none either. */
  lemma TrimmedConcat(a: string, b: string)
    requires Trimmed(a) && Trimmed(b)
    ensures Trimmed(a + b)
  {
    if a == [] {
      assert a + b == b;
    } else if b == [] {
      assert a + b == a;
    } else {
      assert (a + b)[0] == a[0];
      assert (a + b)[|a + b| - 1] == b[|b| - 1];
    }
  }

  /** `trim` leaves nothing exactly of a string that is all white space. */
  lemma TrimEmpty(s: string)
    ensures Trim(s) == [] <==> AllSpace(s)
  {
    if AllSpace(s) {
      assert s + [] + [] == s;
      TrimOf(s, [], []);
    } else {
      TrimStartShape(s);
      var t := TrimStart(s);
      TrimEndShape(t);
      if Trim(s) == [] {
        assert AllSpace(t[|TrimEnd(t)|..]) && t[|TrimEnd(t)|..] == t;
        assert s == s[..|s| - |t|] + t;
        assert AllSpace(s);
      }
    }
  }

  // --------------------------------------------------------------- split

  /** The inverse of `split`: the parts with one separator between neighbours. */
  function JoinWith(parts: seq<string>, sep: char): string
    requires |parts| >= 1
  {
    if |parts| == 1 then parts[0] else parts[0] + [sep] + JoinWith(parts[1..], sep)
  }

  /** `s.split(sep)` for a one-character separator: every piece between
      separators, empty pieces included, so `""` gives `[""]`. */
  function Split(s: string, sep: char): (r: seq<string>)
    ensures |r| >= 1
    ensures forall i :: 0 <= i < |r| ==> sep !in r[i]
    ensures JoinWith(r, sep) == s
  {
    if s == [] then [[]]
    else
      var rest := Split(s[1..], sep);
      if s[0] == sep then
        assert [s[0]] + s[1..] == s;
        [[]] + rest
      else
        var r := [[s[0]] + rest[0]] + rest[1..];
        assert r[1..] == rest[1..];
        assert |rest| > 1 ==> JoinWith(rest, sep) == rest[0] + [sep] + JoinWith(rest[1..], sep);
        assert [s[0]] + s[1..] == s;
        r
  }

  lemma {:induction false} SplitPiece(p: string, sep: char)
    requires sep !in p
    ensures Split(p, sep) == [p]
  {
    if p != [] {
      SplitPiece(p[1..], sep);
      assert [p[0]] + p[1..] == p;
    }
  }

  lemma {:induction false} SplitFirst(p: string, sep: char, t: string)
    requires sep !in p
    ensures Split(p + [sep] + t, sep) == [p] + Split(t, sep)
  {
    if p == [] {
      assert p + [sep] + t == [sep] + t;
      assert ([sep] + t)[1..] == t;
    } else {
      assert (p + [sep] + t)[1..] == p[1..] + [sep] + t;
      SplitFirst(p[1..], sep, t);
      assert [p[0]] + p[1..] == p;
    }
  }

  /** The other direction of the round trip: splitting undoes joining when no
      part holds the separator. */
  lemma {:induction false} SplitJoin(parts: seq<string>, sep: char)
    requires |parts| >= 1
    requires forall i :: 0 <= i < |parts| ==> sep !in parts[i]
    ensures Split(JoinWith(parts, sep), sep) == parts
  {
    if |parts| == 1 {
      SplitPiece(parts[0], sep);
    } else {
      SplitFirst(parts[0], sep, JoinWith(parts[1..], sep));
      SplitJoin(parts[1..], sep);
      assert [parts[0]] + parts[1..] == parts;
    }
  }

  // ------------------------------------------------------------ parseInt

  predicate IsDigit(c: char) {
    '0' <= c <= '9'
  }

  predicate AllDigits(s: string) {
    forall k :: 0 <= k < |s| ==> IsDigit(s[k])
  }

  /** The longest prefix of decimal digits. */
  function DigitPrefix(s: string): (r: string)
    ensures |r| <= |s| && r == s[..|r|] && AllDigits(r)
    ensures |r| < |s| ==> !IsDigit(s[|r|])
  {
    if s != [] && IsDigit(s[0]) then [s[0]] + DigitPrefix(s[1..]) else []
  }

  function DigitsValue(ds: string): nat
    requires AllDigits(ds)
  {
    if ds == [] then 0
    else 10 * DigitsValue(ds[..|ds| - 1]) + (ds[|ds| - 1] as int - '0' as int)
  }

  /** `parseInt(s, 10)`; `None` stands for NaN. Leading white space and one
      sign are skipped, then the longest run of digits is read and the rest
      of the string ignored. Values are exact: the rounding of integers above
      2^53 to the nearest double is not modelled. */
  function ParseInt(s: string): Option<int>
  {
    var t := TrimStart(s);
    var negative := t != [] && t[0] == '-';
    var u := if t != [] && (t[0] == '-' || t[0] == '+') then t[1..] else t;
    var ds := DigitPrefix(u);
    if ds == [] then None
    else
      var v: int := DigitsValue(ds);
      Some(if negative then -v else v)
  }

  /** What `parseInt` makes of the first character after the leading white
      space: nothing left or a character that is neither a digit nor a
      sign gives NaN, a digit a number that is not negative, and only a
      minus sign a negative number. */
  lemma ParseIntCases(s: string)
    ensures var t := TrimStart(s);
      && (t == [] ==> ParseInt(s).None?)
      && (t != [] && !IsDigit(t[0]) && t[0] != '-' && t[0] != '+' ==> ParseInt(s).None?)
      && (t != [] && IsDigit(t[0]) ==> ParseInt(s).Some? && ParseInt(s).value >= 0)
      && (ParseInt(s).Some? && ParseInt(s).value < 0 ==> t[0] == '-')
  {
  }

  /** The decimal numeral of `n`, no leading zeros: the way a number is printed. */
  function Decimal(n: nat): (r: string)
    ensures r != [] && AllDigits(r)
  {
    if n < 10 then [('0' as int + n) as char]
    else Decimal(n / 10) + [('0' as int + n % 10) as char]
  }

  lemma {:induction false} DecimalValue(n: nat)
    ensures DigitsValue(Decimal(n)) == n
  {
    if n >= 10 {
      DecimalValue(n / 10);
      assert Decimal(n)[..|Decimal(n)| - 1] == Decimal(n / 10);
    }
  }

  lemma {:induction false} DigitPrefixOf(ds: string, rest: string)
    requires AllDigits(ds)
    requires rest == [] || !IsDigit(rest[0])
    ensures DigitPrefix(ds + rest) == ds
  {
    if ds != [] {
      assert (ds + rest)[1..] == ds[1..] + rest;
      DigitPrefixOf(ds[1..], rest);
      assert [ds[0]] + ds[1..] == ds;
    } else {
      assert ds + rest == rest;
    }
  }

  /** `parseInt` reads back a printed number, whatever non-digit text follows
      it: `parseInt("5GB", 10)` is 5. */
  lemma ParseIntOfDecimal(n: nat, rest: string)
    requires rest == [] || !IsDigit(rest[0])
    ensures ParseInt(Decimal(n) + rest) == Some(n)
  {
    ParseIntOfDigits(Decimal(n), rest);
    DecimalValue(n);
  }

  /** `parseInt` reads back a printed number. */
  lemma ParseIntOfNumeral(n: nat)
    ensures ParseInt(Decimal(n)) == Some(n)
  {
    assert Decimal(n) + [] == Decimal(n);
    ParseIntOfDecimal(n, []);
  }

  /** `parseInt` of a run of digits followed by something that is not a digit. */
  lemma ParseIntOfDigits(ds: string, rest: string)
    requires ds != [] && AllDigits(ds)
    requires rest == [] || !IsDigit(rest[0])
    ensures ParseInt(ds + rest) == Some(DigitsValue(ds))
  {
    var s := ds + rest;
    assert s[0] == ds[0] && IsDigit(s[0]) && !IsSpace(s[0]);
    assert TrimStart(s) == s;
    assert s[0] != '-' && s[0] != '+';
    DigitPrefixOf(ds, rest);
  }

  // ------------------------------------------------------ JSON.stringify

  function HexDigit(n: nat): char
    requires n < 16
  {
    if n < 10 then ('0' as int + n) as char else ('a' as int + n - 10) as char
  }

  /** How `JSON.stringify` writes one character inside a string literal. */
  function EscapeChar(c: char): string
  {
    if c == '"' then "\\\""
    else if c == '\\' then "\\\\"
    else if c == '\U{8}' then "\\b"
    else if c == '\U{C}' then "\\f"
    else if c == '\n' then "\\n"
    else if c == '\r' then "\\r"
    else if c == '\t' then "\\t"
    else if c < ' ' then "\\u00" + [HexDigit(c as int / 16), HexDigit(c as int % 16)]
    else [c]
  }

  function Escape(s: string): string
  {
    if s == [] then [] else EscapeChar(s[0]) + Escape(s[1..])
  }

  function Quote(s: string): string
  {
    "\"" + Escape(s) + "\""
  }

  function Items(xs: seq<string>): string
  {
    if xs == [] then []
    else if |xs| == 1 then Quote(xs[0])
    else Quote(xs[0]) + "," + Items(xs[1..])
  }

  /** `JSON.stringify(xs)` for an array of strings. */
  function Stringify(xs: seq<string>): (r: string)
    ensures |r| >= 2 && r[0] == '[' && r[|r| - 1] == ']'
    ensures r == "[]" <==> xs == []
  {
    if xs == [] then "[]"
    else
      ItemsStart(xs);
      "[" + Items(xs) + "]"
  }

  // A JSON reader for the same shape, the partner that shows nothing is lost.

  predicate IsHexDigit(c: char) {
    ('0' <= c <= '9') || ('a' <= c <= 'f') || ('A' <= c <= 'F')
  }

  function HexValue(c: char): (r: nat)
    requires IsHexDigit(c)
    ensures r < 16
  {
    if '0' <= c <= '9' then c as int - '0' as int
    else if 'a' <= c <= 'f' then c as int - 'a' as int + 10
    else c as int - 'A' as int + 10
  }

  /** Decodes the escape sequence at the start of `t` (which starts with a
      backslash) into a character and the number of characters it took. */
  function Unescape(t: string): (r: Option<(char, nat)>)
    requires t != [] && t[0] == '\\'
    ensures r.Some? ==> 2 <= r.value.1 <= |t|
  {
    if |t| < 2 then None
    else if t[1] == '"' then Some(('"', 2))
    else if t[1] == '\\' then Some(('\\', 2))
    else if t[1] == '/' then Some(('/', 2))
    else if t[1] == 'b' then Some(('\U{8}', 2))
    else if t[1] == 'f' then Some(('\U{C}', 2))
    else if t[1] == 'n' then Some(('\n', 2))
    else if t[1] == 'r' then Some(('\r', 2))
    else if t[1] == 't' then Some(('\t', 2))
    else if t[1] == 'u' && |t| >= 6
      && IsHexDigit(t[2]) && IsHexDigit(t[3]) && IsHexDigit(t[4]) && IsHexDigit(t[5]) then
      var v := HexValue(t[2]) * 4096 + HexValue(t[3]) * 256 + HexValue(t[4]) * 16 + HexValue(t[5]);
      if v < 0xD800 || 0xDFFF < v then Some((v as char, 6)) else None
    else None
  }

  /** Reads the body of a JSON string literal up to its closing quote; returns
      the decoded text and what follows the quote. */
  function ReadString(t: string): (r: Option<(string, string)>)
    ensures r.Some? ==> |r.value.1| < |t|
    decreases |t|
  {
    if t == [] then None
    else if t[0] == '"' then Some(([], t[1..]))
    else
      var step: Option<(char, nat)> := if t[0] == '\\' then Unescape(t) else Some((t[0], 1));
      match step
      case None => None
      case Some((c, n)) =>
        match ReadString(t[n..])
        case None => None
        case Some((s, rest)) => Some(([c] + s, rest))
  }

  /** Reads `"…","…",…]` after the opening quote of the first item. */
  function ReadItems(t: string): Option<seq<string>>
    decreases |t|
  {
    match ReadString(t)
    case None => None
    case Some((x, u)) =>
      if u == "]" then Some([x])
      else if |u| >= 2 && u[0] == ',' && u[1] == '"' then
        match ReadItems(u[2..])
        case None => None
        case Some(xs) => Some([x] + xs)
      else None
  }

  /** Reads a JSON array of strings written without white space. */
  function ParseArray(t: string): Option<seq<string>>
  {
    if t == "[]" then Some([])
    else if |t| >= 2 && t[0] == '[' && t[1] == '"' then ReadItems(t[2..])
    else None
  }

  lemma ReadEscapedChar(c: char, t: string)
    ensures ReadString(EscapeChar(c) + t) ==
      match ReadString(t)
      case None => None
      case Some((s, rest)) => Some(([c] + s, rest))
  {
    var e := EscapeChar(c);
    var w := e + t;
    assert w[|e|..] == t;
    if c < ' ' && c != '\U{8}' && c != '\U{C}' && c != '\n' && c != '\r' && c != '\t' {
      ReadControlChar(c, t);
    } else if c == '"' || c == '\\' || c == '\U{8}' || c == '\U{C}' || c == '\n' || c == '\r' || c == '\t' {
      assert |e| == 2 && w[0] == '\\' && Unescape(w) == Some((c, 2));
    } else {
      assert e == [c] && w[0] == c;
    }
    ReadStep(w, c, |e|);
  }

  /** One step of `ReadString`: a character (plain or escaped) that takes
      `n` characters of the text. */
  lemma ReadStep(w: string, c: char, n: nat)
    requires w != [] && w[0] != '"'
    requires if w[0] == '\\' then Unescape(w) == Some((c, n)) else c == w[0] && n == 1
    ensures ReadString(w) ==
      match ReadString(w[n..])
      case None => None
      case Some((s, rest)) => Some(([c] + s, rest))
  {
  }

  /** A control character written as `\u00XY` decodes back to itself. */
  lemma ReadControlChar(c: char, t: string)
    requires c < ' ' && c != '\U{8}' && c != '\U{C}' && c != '\n' && c != '\r' && c != '\t'
    ensures |EscapeChar(c)| == 6 && Unescape(EscapeChar(c) + t) == Some((c, 6))
  {
    var w := EscapeChar(c) + t;
    var hi, lo := c as int / 16, c as int % 16;
    assert hi < 2;
    assert w[1] == 'u' && w[2] == '0' && w[3] == '0' && w[4] == HexDigit(hi) && w[5] == HexDigit(lo);
    HexRoundTrip(hi);
    HexRoundTrip(lo);
    assert HexValue(w[2]) * 4096 + HexValue(w[3]) * 256 + HexValue(w[4]) * 16 + HexValue(w[5]) == c as int;
  }

  lemma HexRoundTrip(n: nat)
    requires n < 16
    ensures IsHexDigit(HexDigit(n)) && HexValue(HexDigit(n)) == n
  {
  }

  lemma {:induction false} ReadEscaped(s: string, rest: string)
    ensures ReadString(Escape(s) + "\"" + rest) == Some((s, rest))
  {
    if s == [] {
      assert Escape(s) + "\"" + rest == "\"" + rest;
    } else {
      var tail := Escape(s[1..]) + "\"" + rest;
      assert Escape(s) + "\"" + rest == EscapeChar(s[0]) + tail;
      ReadEscaped(s[1..], rest);
      ReadEscapedChar(s[0], tail);
      assert [s[0]] + s[1..] == s;
    }
  }

  /** What follows the first item of a non-empty array text. */
  function After(xs: seq<string>): string
    requires |xs| >= 1
  {
    if |xs| == 1 then "]" else "," + Items(xs[1..]) + "]"
  }

  lemma DropQuote(e: string, x: string)
    ensures ("\"" + e + "\"" + x + "]")[1..] == e + "\"" + (x + "]")
  {
  }

  lemma ItemsShape(xs: seq<string>)
    requires |xs| >= 1
    ensures (Items(xs) + "]")[1..] == Escape(xs[0]) + "\"" + After(xs)
  {
    var x: string := if |xs| == 1 then [] else "," + Items(xs[1..]);
    ItemsHead(xs, x);
    AfterOf(xs, x);
    DropQuote(Escape(xs[0]), x);
  }

  lemma ItemsHead(xs: seq<string>, x: string)
    requires |xs| >= 1
    requires x == if |xs| == 1 then [] else "," + Items(xs[1..])
    ensures Items(xs) == Quote(xs[0]) + x
  {
    if |xs| == 1 {
      assert Quote(xs[0]) + x == Quote(xs[0]);
    }
  }

  lemma AfterOf(xs: seq<string>, x: string)
    requires |xs| >= 1
    requires x == if |xs| == 1 then [] else "," + Items(xs[1..])
    ensures x + "]" == After(xs)
  {
  }

  /** The text after the first item of a longer array: a comma, then the
      rest of the items without their opening quote. */
  lemma AfterShape(xs: seq<string>)
    requires |xs| >= 2
    ensures |After(xs)| >= 2 && After(xs)[0] == ',' && After(xs)[1] == '"'
    ensures After(xs)[2..] == (Items(xs[1..]) + "]")[1..]
  {
    var more := Items(xs[1..]) + "]";
    assert Items(xs[1..]) == Quote(xs[1]) + (if |xs[1..]| == 1 then [] else "," + Items(xs[2..]));
    assert more[0] == '"';
    assert After(xs) == "," + more;
  }

  lemma ReadItemsCons(t: string, x: string, u: string, ys: seq<string>)
    requires ReadString(t) == Some((x, u))
    requires |u| >= 2 && u[0] == ',' && u[1] == '"'
    requires ReadItems(u[2..]) == Some(ys)
    ensures ReadItems(t) == Some([x] + ys)
  {
  }

  lemma {:induction false} ReadItemsOf(xs: seq<string>)
    requires |xs| >= 1
    ensures ReadItems((Items(xs) + "]")[1..]) == Some(xs)
  {
    var after := After(xs);
    var t := (Items(xs) + "]")[1..];
    ItemsShape(xs);
    ReadEscaped(xs[0], after);
    if |xs| > 1 {
      AfterShape(xs);
      ReadItemsOf(xs[1..]);
      ReadItemsCons(t, xs[0], after, xs[1..]);
      assert [xs[0]] + xs[1..] == xs;
    } else {
      assert xs == [xs[0]];
    }
  }

  lemma ItemsStart(xs: seq<string>)
    requires |xs| >= 1
    ensures |Items(xs)| >= 2 && Items(xs)[0] == '"'
  {
    var q := Quote(xs[0]);
    assert q[0] == '"' && |q| >= 2;
    assert Items(xs) == q + (if |xs| == 1 then [] else "," + Items(xs[1..]));
  }

  /** Round trip: the JSON text decodes to the list it was made from, in the
      same order and with the same repetitions. */
  lemma StringifyRoundTrip(xs: seq<string>)
    ensures ParseArray(Stringify(xs)) == Some(xs)
  {
    if xs != [] {
      var t := Stringify(xs);
      var body := Items(xs) + "]";
      ItemsStart(xs);
      assert t == "[" + body;
      assert |t| >= 4 && t[0] == '[' && t[1] == '"';
      assert t[2..] == body[1..];
      ReadItemsOf(xs);
    }
  }
}
