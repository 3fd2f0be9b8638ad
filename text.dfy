/**
 * The pieces of Python's string handling that the generator relies on:
 * `str.join`, `str.split` on one character, `posixpath.join` of two paths,
 * `repr` of a string and `str` of a bool.
 */
module Text {
  import opened Wrappers

  /** `sep.join(parts)`. */
  function Join(sep: string, parts: seq<string>): string {
    if |parts| == 0 then ""
    else if |parts| == 1 then parts[0]
    else parts[0] + sep + Join(sep, parts[1..])
  }

  /** `s.split(c)`: the pieces between occurrences of `c`; there is always at least one. */
  function Split(s: string, c: char): (r: seq<string>)
    ensures |r| >= 1
  {
    if |s| == 0 then [""]
    else
      var rest := Split(s[1..], c);
      if s[0] == c then [""] + rest else [[s[0]] + rest[0]] + rest[1..]
  }

  /** A piece without the separator splits into itself. */
  lemma {:induction false} SplitWithoutSeparator(p: string, c: char)
    requires c !in p
    ensures Split(p, c) == [p]
  {
    if |p| > 0 {
      SplitWithoutSeparator(p[1..], c);
      assert [p[0]] + p[1..] == p;
    }
  }

  /** Splitting stops at the first separator. */
  lemma {:induction false} SplitAtFirstSeparator(p: string, c: char, rest: string)
    requires c !in p
    ensures Split(p + [c] + rest, c) == [p] + Split(rest, c)
  {
    if |p| == 0 {
      assert p + [c] + rest == [c] + rest;
      assert ([c] + rest)[1..] == rest;
    } else {
      SplitAtFirstSeparator(p[1..], c, rest);
      assert (p + [c] + rest)[1..] == p[1..] + [c] + rest;
      assert [p[0]] + p[1..] == p;
    }
  }

  /** Joining on a character that no part contains, then splitting on it, gives the parts back. */
  lemma {:induction false} SplitJoin(parts: seq<string>, c: char)
    requires |parts| >= 1
    requires forall i :: 0 <= i < |parts| ==> c !in parts[i]
    ensures Split(Join([c], parts), c) == parts
  {
    if |parts| == 1 {
      SplitWithoutSeparator(parts[0], c);
    } else {
      SplitJoin(parts[1..], c);
      SplitAtFirstSeparator(parts[0], c, Join([c], parts[1..]));
      assert [parts[0]] + parts[1..] == parts;
    }
  }

  /** Splitting, then joining the pieces with the separator, gives the string back. */
  lemma {:induction false} JoinSplit(s: string, c: char)
    ensures Join([c], Split(s, c)) == s
  {
    if |s| > 0 {
      JoinSplit(s[1..], c);
      var rest := Split(s[1..], c);
      if s[0] == c {
        assert ([""] + rest)[1..] == rest;
        assert [s[0]] + s[1..] == s;
      } else if |rest| == 1 {
        assert [s[0]] + s[1..] == s;
      } else {
        var r := [[s[0]] + rest[0]] + rest[1..];
        assert r[1..] == rest[1..];
        assert [s[0]] + s[1..] == s;
      }
    }
  }

  /** Joining one more part appends the separator and that part. */
  lemma {:induction false} JoinAppend(sep: string, parts: seq<string>, last: string)
    requires |parts| >= 1
    ensures Join(sep, parts + [last]) == Join(sep, parts) + sep + last
  {
    if |parts| == 1 {
      assert parts + [last] == [parts[0], last];
    } else {
      JoinAppend(sep, parts[1..], last);
      assert (parts + [last])[1..] == parts[1..] + [last];
    }
  }

  /** A join ends with its last part. */
  lemma {:induction false} JoinEndsWithLast(sep: string, parts: seq<string>) returns (prefix: string)
    requires |parts| >= 1
    ensures Join(sep, parts) == prefix + parts[|parts| - 1]
  {
    if |parts| == 1 {
      prefix := "";
    } else {
      var rest := JoinEndsWithLast(sep, parts[1..]);
      prefix := parts[0] + sep + rest;
    }
  }

  /** With a non-empty separator, the join is empty exactly when there is nothing to join. */
  lemma JoinIsEmpty(sep: string, parts: seq<string>)
    requires sep != ""
    ensures Join(sep, parts) == "" <==> parts == [] || parts == [""]
  {
    if |parts| >= 2 {
      assert |Join(sep, parts)| >= |sep|;
    }
  }

  /** `posixpath.join(a, b)`: an absolute `b` replaces `a`; a separator is added only when needed. */
  function PathJoin(a: string, b: string): string {
    if |b| > 0 && b[0] == '/' then b
    else if a == "" || a[|a| - 1] == '/' then a + b
    else a + "/" + b
  }

  /**
   * A join ends with its second part; an absolute second part is the whole
   * join, and a relative one is appended to the first part.
   */
  lemma PathJoinParts(a: string, b: string)
    ensures var r := PathJoin(a, b); |r| >= |b| && r[|r| - |b|..] == b
    ensures |b| > 0 && b[0] == '/' ==> PathJoin(a, b) == b
    ensures !(|b| > 0 && b[0] == '/') ==> var r := PathJoin(a, b); |r| >= |a| && r[..|a|] == a
  {
  }

  /** `str(b)` for a bool. */
  function BoolText(b: bool): string {
    if b then "True" else "False"
  }

  const HexDigits: string := "0123456789abcdef"

  predicate IsHexDigit(d: char) {
    '0' <= d <= '9' || 'a' <= d <= 'f' || 'A' <= d <= 'F'
  }

  function HexValue(d: char): (v: nat)
    requires IsHexDigit(d)
    ensures v < 16
  {
    if d <= '9' then d as int - '0' as int
    else if d <= 'F' then d as int - 'A' as int + 10
    else d as int - 'a' as int + 10
  }

  lemma HexDigitValue(v: nat)
    requires v < 16
    ensures IsHexDigit(HexDigits[v]) && HexValue(HexDigits[v]) == v
  {
  }

  /** The quote `repr` puts around a string: `"` when it holds `'` but no `"`, otherwise `'`. */
  function ReprQuote(s: string): char {
    if '\'' in s && '"' !in s then '"' else '\''
  }

  /** How `repr` writes one character of a string delimited by `quote`. */
  function EscapeChar(c: char, quote: char): string {
    if c == quote || c == '\\' then ['\\', c]
    else if c == '\t' then "\\t"
    else if c == '\n' then "\\n"
    else if c == '\r' then "\\r"
    else if c < ' ' || c as int == 0x7f then ['\\', 'x', HexDigits[c as int / 16], HexDigits[c as int % 16]]
    else [c]
  }

  function EscapeAll(s: string, quote: char): string {
    if s == [] then "" else EscapeChar(s[0], quote) + EscapeAll(s[1..], quote)
  }

  /** `repr(s)` for a string `s`. */
  function PyRepr(s: string): string {
    var q := ReprQuote(s);
    [q] + EscapeAll(s, q) + [q]
  }

  /**
   * `repr` delimits a string by the same quote at both ends: a double quote
   * exactly when the string holds a single quote and no double quote, and a
   * single quote otherwise.
   */
  lemma ReprDelimited(s: string)
    ensures var r := PyRepr(s);
      && |r| >= 2 && r[|r| - 1] == r[0]
      && r[0] == (if '\'' in s && '"' !in s then '"' else '\'')
  {
  }

  function Prepend(c: char, rest: Option<string>): Option<string> {
    if rest.Some? then Some([c] + rest.value) else None
  }

  /**
   * Reads the body of a string literal delimited by `quote`: the escapes
   * `repr` writes are decoded, and a bare delimiter or unknown escape fails.
   */
  function Unescape(t: string, quote: char): Option<string>
    decreases |t|
  {
    if t == [] then Some("")
    else if t[0] == quote then None
    else if t[0] != '\\' then Prepend(t[0], Unescape(t[1..], quote))
    else if |t| < 2 then None
    else if t[1] == '\\' || t[1] == '\'' || t[1] == '"' then Prepend(t[1], Unescape(t[2..], quote))
    else if t[1] == 't' then Prepend('\t', Unescape(t[2..], quote))
    else if t[1] == 'n' then Prepend('\n', Unescape(t[2..], quote))
    else if t[1] == 'r' then Prepend('\r', Unescape(t[2..], quote))
    else if t[1] == 'x' && |t| >= 4 && IsHexDigit(t[2]) && IsHexDigit(t[3]) then
      Prepend((16 * HexValue(t[2]) + HexValue(t[3])) as char, Unescape(t[4..], quote))
    else None
  }

  /** Reads a single- or double-quoted Python string literal. */
  function Unrepr(lit: string): Option<string> {
    if |lit| >= 2 && (lit[0] == '\'' || lit[0] == '"') && lit[|lit| - 1] == lit[0] then
      Unescape(lit[1..|lit| - 1], lit[0])
    else None
  }

  lemma UnescapeChar(c: char, quote: char, rest: string)
    requires quote == '\'' || quote == '"'
    ensures Unescape(EscapeChar(c, quote) + rest, quote) == Prepend(c, Unescape(rest, quote))
  {
    var t := EscapeChar(c, quote) + rest;
    if c == quote || c == '\\' || c == '\t' || c == '\n' || c == '\r' {
      assert t[2..] == rest;
    } else if c < ' ' || c as int == 0x7f {
      UnescapeHexEscape(c, quote, rest);
    } else {
      assert t[1..] == rest;
    }
  }

  lemma UnescapeHexEscape(c: char, quote: char, rest: string)
    requires quote == '\'' || quote == '"'
    requires c as int < 0x80
    ensures var t := ['\\', 'x', HexDigits[c as int / 16], HexDigits[c as int % 16]] + rest;
      Unescape(t, quote) == Prepend(c, Unescape(rest, quote))
  {
    var t := ['\\', 'x', HexDigits[c as int / 16], HexDigits[c as int % 16]] + rest;
    HexDigitValue(c as int / 16);
    HexDigitValue(c as int % 16);
    assert t[4..] == rest;
  }

  lemma {:induction false} UnescapeEscapeAll(s: string, quote: char)
    requires quote == '\'' || quote == '"'
    ensures Unescape(EscapeAll(s, quote), quote) == Some(s)
  {
    if s != [] {
      UnescapeEscapeAll(s[1..], quote);
      UnescapeChar(s[0], quote, EscapeAll(s[1..], quote));
      assert [s[0]] + s[1..] == s;
    }
  }

  /** Reading back what `repr` writes gives the original string. */
  lemma ReprRoundTrip(s: string)
    ensures Unrepr(PyRepr(s)) == Some(s)
  {
    var q := ReprQuote(s);
    var lit := PyRepr(s);
    assert lit[1..|lit| - 1] == EscapeAll(s, q);
    UnescapeEscapeAll(s, q);
  }

  /** Each item with a space put in front of it. */
  function SpaceEach(xs: seq<string>): (r: seq<string>)
    ensures |r| == |xs| && forall i :: 0 <= i < |xs| ==> r[i] == " " + xs[i]
  {
    if xs == [] then [] else [" " + xs[0]] + SpaceEach(xs[1..])
  }

  /** Each item without its first character. */
  function DropFirstEach(xs: seq<string>): (r: seq<string>)
    ensures |r| == |xs|
  {
    if xs == [] then []
    else (if xs[0] == "" then [""] else [xs[0][1..]]) + DropFirstEach(xs[1..])
  }

  lemma {:induction false} DropFirstSpaceEach(xs: seq<string>)
    ensures DropFirstEach(SpaceEach(xs)) == xs
  {
    if xs != [] {
      DropFirstSpaceEach(xs[1..]);
      assert SpaceEach(xs)[1..] == SpaceEach(xs[1..]);
      assert (" " + xs[0])[1..] == xs[0];
    }
  }

  /** Reads back a list written with `', '.join(...)`: split at each comma and drop the space after it. */
  function ReadCommaList(s: string): seq<string> {
    var parts := Split(s, ',');
    [parts[0]] + DropFirstEach(parts[1..])
  }

  /** A space in front of the first part of a join is a space in front of the join. */
  lemma JoinSpaceFirst(sep: string, x: string, rest: seq<string>)
    ensures Join(sep, [" " + x] + rest) == " " + Join(sep, [x] + rest)
  {
    if rest != [] {
      assert ([" " + x] + rest)[1..] == rest;
      assert ([x] + rest)[1..] == rest;
    }
  }

  /** `', '.join(xs)` is `','.join` of the items with a space put in front of all but the first. */
  lemma {:induction false} JoinCommaSpace(xs: seq<string>)
    requires |xs| >= 1
    ensures Join(", ", xs) == Join(",", [xs[0]] + SpaceEach(xs[1..]))
  {
    if |xs| >= 2 {
      JoinCommaSpace(xs[1..]);
      assert xs[1..][1..] == xs[2..];
      var rest := SpaceEach(xs[2..]);
      assert SpaceEach(xs[1..]) == [" " + xs[1]] + rest;
      JoinSpaceFirst(",", xs[1], rest);
      assert ([xs[0]] + SpaceEach(xs[1..]))[1..] == SpaceEach(xs[1..]);
    }
  }

  /** Putting a space in front of an item adds no comma. */
  lemma SpaceAddsNoComma(x: string)
    requires ',' !in x
    ensures ',' !in " " + x
  {
    assert forall i :: 1 <= i < |" " + x| ==> (" " + x)[i] == x[i - 1];
  }

  /** Reading back a `', '`-joined list whose items hold no comma gives the items. */
  lemma CommaListRoundTrip(xs: seq<string>)
    requires |xs| >= 1
    requires forall i :: 0 <= i < |xs| ==> ',' !in xs[i]
    ensures ReadCommaList(Join(", ", xs)) == xs
  {
    var spaced := SpaceEach(xs[1..]);
    var parts := [xs[0]] + spaced;
    JoinCommaSpace(xs);
    assert Join(", ", xs) == Join([','], parts);
    NoCommaInParts(xs);
    SplitJoin(parts, ',');
    assert parts[1..] == spaced;
    DropFirstSpaceEach(xs[1..]);
    assert [xs[0]] + xs[1..] == xs;
  }

  lemma NoCommaInParts(xs: seq<string>)
    requires |xs| >= 1
    requires forall i :: 0 <= i < |xs| ==> ',' !in xs[i]
    ensures var parts := [xs[0]] + SpaceEach(xs[1..]);
      forall i :: 0 <= i < |parts| ==> ',' !in parts[i]
  {
    var parts := [xs[0]] + SpaceEach(xs[1..]);
    forall i | 1 <= i < |parts|
      ensures ',' !in parts[i]
    {
      assert parts[i] == " " + xs[i];
      SpaceAddsNoComma(xs[i]);
    }
  }
}
