/** Text primitives shared by the C, Go and Python parts: cutting a byte stream at newlines,
    splitting a line at a separator, and decimal numerals.  A byte is modelled as a `char`. */
module Text {

  datatype Option<+T> = None | Some(value: T)

  // ---------- Newline framing ----------

  /** What a stream splits into: the newline-terminated lines, and the bytes after the last newline. */
  datatype Split = Split(lines: seq<string>, tail: string)

  /** Reading one more byte. */
  function Feed(p: Split, c: char): Split
  {
    if c == '\n' then Split(p.lines + [p.tail + [c]], "") else Split(p.lines, p.tail + [c])
  }

  function FeedAll(p: Split, x: string): Split
  {
    if x == "" then p else Feed(FeedAll(p, x[..|x| - 1]), x[|x| - 1])
  }

  function SplitLines(s: string): Split
  {
    FeedAll(Split([], ""), s)
  }

  /** A newline-terminated line: one newline, at its end. */
  predicate IsLine(l: string)
  {
    l != "" && l[|l| - 1] == '\n' && '\n' !in l[..|l| - 1]
  }

  ghost predicate AllLines(ls: seq<string>)
  {
    forall i :: 0 <= i < |ls| ==> IsLine(ls[i])
  }

  function Concat(ls: seq<string>): string
  {
    if ls == [] then "" else Concat(ls[..|ls| - 1]) + ls[|ls| - 1]
  }

  lemma AppendAssoc(a: string, b: string, c: string)
    ensures (a + b) + c == a + (b + c)
  {
  }

  lemma AppendEmpty(a: string)
    ensures a + "" == a && "" + a == a
  {
  }

  lemma ConcatSnoc(ls: seq<string>, l: string)
    ensures Concat(ls + [l]) == Concat(ls) + l
  {
    assert (ls + [l])[..|ls|] == ls;
  }

  /** Reading a stream in two parts is reading it whole. */
  lemma {:induction false} FeedAppend(p: Split, a: string, b: string)
    ensures FeedAll(p, a + b) == FeedAll(FeedAll(p, a), b)
  {
    if b == "" {
      assert a + b == a;
    } else {
      FeedAppend(p, a, b[..|b| - 1]);
      assert (a + b)[..|a + b| - 1] == a + b[..|b| - 1];
      assert (a + b)[|a + b| - 1] == b[|b| - 1];
    }
  }

  /** Bytes without a newline only lengthen the tail. */
  lemma {:induction false} FeedFree(p: Split, x: string)
    requires '\n' !in x
    ensures FeedAll(p, x) == Split(p.lines, p.tail + x)
  {
    if x == "" {
      assert p.tail + x == p.tail;
    } else {
      FeedFree(p, x[..|x| - 1]);
      assert p.tail + x[..|x| - 1] + [x[|x| - 1]] == p.tail + x;
    }
  }

  /** The bytes up to the next newline complete exactly one line. */
  lemma FeedLine(p: Split, x: string)
    requires IsLine(x)
    ensures FeedAll(p, x) == Split(p.lines + [p.tail + x], "")
  {
    FeedFree(p, x[..|x| - 1]);
    assert p.tail + x[..|x| - 1] + [x[|x| - 1]] == p.tail + x;
  }

  lemma {:induction false} FeedGrows(p: Split, x: string)
    ensures p.lines <= FeedAll(p, x).lines
  {
    if x != "" {
      FeedGrows(p, x[..|x| - 1]);
    }
  }

  lemma AllLinesSnoc(ls: seq<string>, t: string)
    requires AllLines(ls) && '\n' !in t
    ensures AllLines(ls + [t + ['\n']])
  {
    assert (t + ['\n'])[..|t|] == t;
  }

  /** Splitting loses nothing, every piece is a line, and the tail holds no newline ... */
  lemma {:induction false} SplitSound(s: string)
    ensures AllLines(SplitLines(s).lines)
    ensures '\n' !in SplitLines(s).tail
    ensures Concat(SplitLines(s).lines) + SplitLines(s).tail == s
  {
    if s != "" {
      var s0, c := s[..|s| - 1], s[|s| - 1];
      SplitSound(s0);
      FeedSound(SplitLines(s0), c);
      assert s0 + [c] == s;
    }
  }

  lemma FeedSound(p: Split, c: char)
    requires AllLines(p.lines) && '\n' !in p.tail
    ensures AllLines(Feed(p, c).lines) && '\n' !in Feed(p, c).tail
    ensures Concat(Feed(p, c).lines) + Feed(p, c).tail == Concat(p.lines) + p.tail + [c]
  {
    AppendAssoc(Concat(p.lines), p.tail, [c]);
    if c == '\n' {
      AllLinesSnoc(p.lines, p.tail);
      ConcatSnoc(p.lines, p.tail + [c]);
      AppendEmpty(Concat(Feed(p, c).lines));
    }
  }

  /** ... and it is the only way to cut a stream like that. */
  lemma SplitUnique(ls: seq<string>, t: string)
    requires AllLines(ls) && '\n' !in t
    ensures SplitLines(Concat(ls) + t) == Split(ls, t)
  {
    SplitConcat(ls);
    FeedAppend(Split([], ""), Concat(ls), t);
    FeedFree(Split(ls, ""), t);
    assert "" + t == t;
  }

  lemma {:induction false} SplitConcat(ls: seq<string>)
    requires AllLines(ls)
    ensures SplitLines(Concat(ls)) == Split(ls, "")
  {
    if ls != [] {
      var ls0, l := ls[..|ls| - 1], ls[|ls| - 1];
      SplitConcat(ls0);
      FeedAppend(Split([], ""), Concat(ls0), l);
      FeedWholeLine(ls0, l);
      assert ls0 + [l] == ls;
    }
  }

  lemma FeedWholeLine(ls: seq<string>, l: string)
    requires IsLine(l)
    ensures FeedAll(Split(ls, ""), l) == Split(ls + [l], "")
  {
    FeedLine(Split(ls, ""), l);
    assert "" + l == l;
  }

  lemma SplitExtend(s: string, x: string)
    requires '\n' !in x
    ensures SplitLines(s + x) == Split(SplitLines(s).lines, SplitLines(s).tail + x)
  {
    FeedAppend(Split([], ""), s, x);
    FeedFree(SplitLines(s), x);
  }

  lemma SplitCompletes(s: string, x: string)
    requires IsLine(x)
    ensures SplitLines(s + x) == Split(SplitLines(s).lines + [SplitLines(s).tail + x], "")
  {
    FeedAppend(Split([], ""), s, x);
    FeedLine(SplitLines(s), x);
  }

  lemma SplitPrefix(s: string, x: string)
    ensures SplitLines(s).lines <= SplitLines(s + x).lines
  {
    FeedAppend(Split([], ""), s, x);
    FeedGrows(SplitLines(s), x);
  }

  // ---------- Separators ----------

  /** Go's strings.Split for a one-character separator. */
  function SplitOn(s: string, sep: char): (r: seq<string>)
    ensures |r| >= 1
  {
    if s == "" then [""]
    else
      var p := SplitOn(s[..|s| - 1], sep);
      var c := s[|s| - 1];
      if c == sep then p + [""] else p[..|p| - 1] + [p[|p| - 1] + [c]]
  }

  lemma {:induction false} SplitOnFree(s: string, sep: char)
    requires sep !in s
    ensures SplitOn(s, sep) == [s]
  {
    if s != "" {
      SplitOnFree(s[..|s| - 1], sep);
      assert s == s[..|s| - 1] + [s[|s| - 1]];
    }
  }

  lemma SplitOnSnoc(s: string, c: char, sep: char)
    ensures SplitOn(s + [c], sep) ==
            var p := SplitOn(s, sep);
            if c == sep then p + [""] else p[..|p| - 1] + [p[|p| - 1] + [c]]
  {
    assert (s + [c])[..|s|] == s;
  }

  /** The text before the first separator is the first field, the rest is split independently. */
  lemma {:induction false} SplitOnFirst(a: string, sep: char, b: string)
    requires sep !in a
    ensures SplitOn(a + [sep] + b, sep) == [a] + SplitOn(b, sep)
  {
    if b == "" {
      SplitOnFree(a, sep);
      SplitOnSnoc(a, sep, sep);
      AppendEmpty(a + [sep]);
      assert [a] + [""] == [a] + SplitOn("", sep);
    } else {
      var b0, c := b[..|b| - 1], b[|b| - 1];
      SplitOnFirst(a, sep, b0);
      FirstUnderSnoc(a + [sep] + b0, a, b0, c, sep);
      AppendAssoc(a + [sep], b0, [c]);
      assert b0 + [c] == b;
    }
  }

  lemma FirstUnderSnoc(s: string, a: string, b: string, c: char, sep: char)
    requires SplitOn(s, sep) == [a] + SplitOn(b, sep)
    ensures SplitOn(s + [c], sep) == [a] + SplitOn(b + [c], sep)
  {
    SplitOnSnoc(s, c, sep);
    SplitOnSnoc(b, c, sep);
    var p := SplitOn(b, sep);
    LastBehind(a, p, c);
    if c == sep {
      assert SplitOn(b + [c], sep) == p + [""];
    } else {
      assert SplitOn(b + [c], sep) == p[..|p| - 1] + [p[|p| - 1] + [c]];
    }
  }

  lemma LastBehind(a: string, p: seq<string>, c: char)
    requires p != []
    ensures ([a] + p) + [""] == [a] + (p + [""])
    ensures ([a] + p)[..|[a] + p| - 1] + [([a] + p)[|[a] + p| - 1] + [c]] == [a] + (p[..|p| - 1] + [p[|p| - 1] + [c]])
  {
  }

  function NonEmpty(ss: seq<string>): seq<string>
  {
    if ss == [] then []
    else if ss[0] == "" then NonEmpty(ss[1..])
    else [ss[0]] + NonEmpty(ss[1..])
  }

  lemma {:induction false} NonEmptySnoc(ss: seq<string>, s: string)
    ensures NonEmpty(ss + [s]) == NonEmpty(ss) + if s == "" then [] else [s]
  {
    if ss != [] {
      assert (ss + [s])[1..] == ss[1..] + [s];
      NonEmptySnoc(ss[1..], s);
    }
  }

  /** The C string held by a buffer: the bytes before the first NUL. */
  function UpToNul(s: string): string
  {
    if s == "" || s[0] == '\0' then "" else [s[0]] + UpToNul(s[1..])
  }

  /** The tokens strtok(_, " ") returns one by one. */
  function Tokens(s: string): seq<string>
  {
    NonEmpty(SplitOn(UpToNul(s), ' '))
  }

  lemma {:induction false} UpToNulFree(s: string)
    requires '\0' !in s
    ensures UpToNul(s) == s
  {
    if s != "" {
      UpToNulFree(s[1..]);
    }
  }

  lemma {:induction false} UpToNulOf(s: string, x: string)
    requires '\0' !in s
    ensures UpToNul(s + ['\0'] + x) == s
  {
    var t := s + ['\0'] + x;
    if s != "" {
      UpToNulOf(s[1..], x);
      assert t[0] == s[0] && t[1..] == s[1..] + ['\0'] + x;
    }
  }

  lemma {:induction false} UpToNulStays(s: string, x: string)
    requires '\0' in s
    ensures UpToNul(s + x) == UpToNul(s)
  {
    assert (s + x)[0] == s[0];
    if s[0] != '\0' {
      assert (s + x)[1..] == s[1..] + x;
      UpToNulStays(s[1..], x);
    }
  }

  /** The last field ends as the text does. */
  lemma LastField(s: string, sep: char)
    requires s != "" && s[|s| - 1] != sep
    ensures var p := SplitOn(s, sep);
            p[|p| - 1] != "" && p[|p| - 1][|p[|p| - 1]| - 1] == s[|s| - 1]
  {
  }

  predicate HasPrefix(s: string, p: string)
  {
    p <= s
  }

  /** A text whose first character is not in the prefix looked for can as well be cut off. */
  lemma PrefixStops(p: string, s: string, x: string)
    requires x != "" ==> x[0] !in p
    ensures HasPrefix(s + x, p) <==> HasPrefix(s, p)
  {
    assert |p| > |s| ==> p[|s|] in p;
  }

  // ---------- Decimal numerals ----------

  predicate IsDigit(c: char)
  {
    '0' <= c <= '9'
  }

  function DigitOf(c: char): nat
    requires IsDigit(c)
  {
    c as int - '0' as int
  }

  predicate AllDigits(s: string)
  {
    forall i :: 0 <= i < |s| ==> IsDigit(s[i])
  }

  /** sprintf "%lld" of a non-negative number. */
  function Itoa(n: nat): string
  {
    if n < 10 then [('0' as int + n) as char]
    else Itoa(n / 10) + [('0' as int + n % 10) as char]
  }

  function Value(s: string): nat
    requires AllDigits(s)
  {
    if s == "" then 0 else 10 * Value(s[..|s| - 1]) + DigitOf(s[|s| - 1])
  }

  const INT64_LIMIT: nat := 0x8000_0000_0000_0000

  /** Go's strconv.ParseInt(s, 10, 64); `None` is its error result. */
  function ParseInt(s: string): Option<int>
  {
    if s == "" then None
    else
      var body := if s[0] == '+' || s[0] == '-' then s[1..] else s;
      if body == "" || !AllDigits(body) then None
      else
        var v: int := Value(body);
        if s[0] == '-' then (if v <= INT64_LIMIT then Some(-v) else None)
        else if v < INT64_LIMIT then Some(v) else None
  }

  lemma {:induction false} ItoaDigits(n: nat)
    ensures Itoa(n) != "" && AllDigits(Itoa(n)) && Value(Itoa(n)) == n
  {
    var d := ('0' as int + n % 10) as char;
    assert IsDigit(d) && DigitOf(d) == n % 10;
    if n < 10 {
      assert Itoa(n) == [d];
      assert [d][..0] == "";
    } else {
      ItoaDigits(n / 10);
      assert Itoa(n)[..|Itoa(n)| - 1] == Itoa(n / 10);
    }
  }

  /** Printing and parsing a timestamp returns it, up to the 64-bit range. */
  lemma ParseItoa(n: nat)
    ensures ParseInt(Itoa(n)) == if n < INT64_LIMIT then Some(n) else None
  {
    ItoaDigits(n);
    assert IsDigit(Itoa(n)[0]);
  }

  /** The digits a numeral starts with. */
  function DigitPrefix(s: string): (r: string)
    ensures AllDigits(r)
  {
    if s == "" || !IsDigit(s[0]) then "" else [s[0]] + DigitPrefix(s[1..])
  }

  predicate IsSpace(c: char)
  {
    c == ' ' || '\t' <= c <= '\r'
  }

  /** C's atoi, without its undefined overflow. */
  function Atoi(s: string): int
  {
    if s == "" then 0
    else if IsSpace(s[0]) then Atoi(s[1..])
    else if s[0] == '-' then -(Value(DigitPrefix(s[1..])) as int)
    else if s[0] == '+' then Value(DigitPrefix(s[1..]))
    else Value(DigitPrefix(s))
  }

  lemma {:induction false} DigitPrefixStops(d: string, rest: string)
    requires AllDigits(d) && rest != "" && !IsDigit(rest[0])
    ensures DigitPrefix(d + rest) == d
  {
    if d == "" {
      assert d + rest == rest;
    } else {
      assert (d + rest)[1..] == d[1..] + rest;
      DigitPrefixStops(d[1..], rest);
    }
  }

  /** What C, Go and Python make of a float that is cast to an integer. */
  function Trunc(x: real): int
  {
    if x >= 0.0 then x.Floor else -(-x).Floor
  }

  /** It cuts towards zero. */
  lemma TruncIs(x: real)
    ensures x >= 0.0 ==> Trunc(x) as real <= x < Trunc(x) as real + 1.0
    ensures x <= 0.0 ==> Trunc(x) as real - 1.0 < x <= Trunc(x) as real
  {
  }

  predicate AllSpace(s: string)
  {
    forall i :: 0 <= i < |s| ==> IsSpace(s[i])
  }

  /** One more character after a non-digit is not read ... */
  lemma {:induction false} DigitPrefixEnds(s: string, c: char)
    requires exists i :: 0 <= i < |s| && !IsDigit(s[i])
    ensures DigitPrefix(s + [c]) == DigitPrefix(s)
  {
    assert (s + [c])[0] == s[0];
    if IsDigit(s[0]) {
      assert (s + [c])[1..] == s[1..] + [c];
      var i :| 0 <= i < |s| && !IsDigit(s[i]);
      assert s[1..][i - 1] == s[i];
      DigitPrefixEnds(s[1..], c);
    }
  }

  lemma OneDigit(d: char)
    requires IsDigit(d)
    ensures DigitPrefix([d]) == [d] && Value([d]) == DigitOf(d)
  {
    assert [d][1..] == "" && [d][..0] == "";
    assert DigitPrefix("") == "" && Value("") == 0;
  }

  /** ... but it is after nothing except white space. */
  lemma {:induction false} AtoiSkips(s: string, d: char)
    requires AllSpace(s) && IsDigit(d)
    ensures Atoi(s) == 0 && Atoi(s + [d]) == DigitOf(d)
  {
    if s == "" {
      OneDigit(d);
      assert s + [d] == [d];
      assert Atoi([d]) == Value(DigitPrefix([d]));
    } else {
      assert (s + [d])[0] == s[0] && IsSpace(s[0]);
      assert (s + [d])[1..] == s[1..] + [d];
      AtoiSkips(s[1..], d);
    }
  }

  lemma {:induction false} AtoiEnds(s: string, c: char)
    requires !AllSpace(s) && s[|s| - 1] == '\n'
    ensures Atoi(s + [c]) == Atoi(s)
  {
    assert (s + [c])[0] == s[0];
    assert (s + [c])[1..] == s[1..] + [c];
    if IsSpace(s[0]) {
      var i :| 0 <= i < |s| && !IsSpace(s[i]);
      assert s[1..][i - 1] == s[i];
      AtoiEnds(s[1..], c);
    } else {
      assert s[1..][|s| - 2] == '\n' && s[|s| - 1] == '\n';
      DigitPrefixEnds(s[1..], c);
      DigitPrefixEnds(s, c);
    }
  }

  /** Signs are read, too. */
  lemma AtoiSigned(n: nat)
    ensures Atoi("-" + Itoa(n)) == -(n as int) && Atoi("+" + Itoa(n)) == n && Atoi(Itoa(n)) == n
  {
    ItoaDigits(n);
    DigitPrefixAll(Itoa(n));
    assert ("-" + Itoa(n))[1..] == Itoa(n) && ("+" + Itoa(n))[1..] == Itoa(n);
    assert IsDigit(Itoa(n)[0]);
  }

  lemma {:induction false} DigitPrefixAll(s: string)
    requires AllDigits(s)
    ensures DigitPrefix(s) == s
  {
    if s != "" {
      DigitPrefixAll(s[1..]);
    }
  }

  lemma ParseSigned(n: nat)
    ensures ParseInt("-" + Itoa(n)) == if n <= INT64_LIMIT then Some(-(n as int)) else None
    ensures ParseInt("+" + Itoa(n)) == if n < INT64_LIMIT then Some(n) else None
  {
    ItoaDigits(n);
    assert ("-" + Itoa(n))[1..] == Itoa(n) && ("+" + Itoa(n))[1..] == Itoa(n);
  }
}
