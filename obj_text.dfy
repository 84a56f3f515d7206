/**
 * The JavaScript string operations parse_into_mesh relies on, on strings
 * of characters (the UTF-16 encoding of JavaScript strings plays no part in
 * what the reader does): split on one character, trim(),
 * split(/\s+/), the /^kw\s/ line tests, and Number() on the decimal index
 * fields of a face token.
 */
module ObjText {

  datatype Option<T> = None | Some(value: T)

  /** The characters JavaScript's \s and trim() treat as white space. */
  predicate IsSpace(c: char)
  {
    || c == ' ' || c == '\t' || c == '\n' || c == '\r' || c == '\U{000B}' || c == '\U{000C}'
    || c == '\U{00A0}' || c == '\U{1680}' || ('\U{2000}' <= c <= '\U{200A}')
    || c == '\U{2028}' || c == '\U{2029}' || c == '\U{202F}' || c == '\U{205F}'
    || c == '\U{3000}' || c == '\U{FEFF}'
  }

  predicate NoSpace(s: string)
  {
    forall k :: 0 <= k < |s| ==> !IsSpace(s[k])
  }

  // ------------------------------------------------------------ split(sep)

  /** s.split(sep) for a one-character separator. */
  function Split(s: string, sep: char): (parts: seq<string>)
    ensures |parts| >= 1
    ensures forall k :: 0 <= k < |parts| ==> sep !in parts[k]
    decreases |s|
  {
    if s == [] then [[]]
    else
      var rest := Split(s[1..], sep);
      if s[0] == sep then [[]] + rest
      else [[s[0]] + rest[0]] + rest[1..]
  }

  /** parts.join(sep): the inverse of Split. */
  function Join(parts: seq<string>, sep: char): string
    requires |parts| >= 1
  {
    if |parts| == 1 then parts[0] else parts[0] + [sep] + Join(parts[1..], sep)
  }

  /** Splitting loses nothing: joining the parts gives the string back. */
  lemma {:induction false} JoinSplit(s: string, sep: char)
    ensures Join(Split(s, sep), sep) == s
    decreases |s|
  {
    if s != [] {
      var rest := Split(s[1..], sep);
      JoinSplit(s[1..], sep);
      if s[0] != sep {
        if |rest| > 1 {
          assert rest[1..][1..] == rest[2..];
        }
      }
    }
  }

  /** Splitting a separator-free string gives the string alone. */
  lemma {:induction false} SplitPlain(w: string, sep: char)
    requires sep !in w
    ensures Split(w, sep) == [w]
    decreases |w|
  {
    if w != [] {
      SplitPlain(w[1..], sep);
      assert [w[0]] + w[1..] == w;
    }
  }

  /** Splitting at the first separator. */
  lemma {:induction false} SplitAtSep(w: string, sep: char, t: string)
    requires sep !in w
    ensures Split(w + [sep] + t, sep) == [w] + Split(t, sep)
    decreases |w|
  {
    if w == [] {
      assert w + [sep] + t == [sep] + t;
      assert ([sep] + t)[1..] == t;
    } else {
      var s := w + [sep] + t;
      assert s[1..] == w[1..] + [sep] + t;
      SplitAtSep(w[1..], sep, t);
      assert [w[0]] + w[1..] == w;
    }
  }

  /** Joining separator-free parts and splitting gives the parts back. */
  lemma {:induction false} SplitJoin(parts: seq<string>, sep: char)
    requires |parts| >= 1
    requires forall k :: 0 <= k < |parts| ==> sep !in parts[k]
    ensures Split(Join(parts, sep), sep) == parts
  {
    if |parts| == 1 {
      SplitPlain(parts[0], sep);
    } else {
      SplitJoin(parts[1..], sep);
      SplitAtSep(parts[0], sep, Join(parts[1..], sep));
      assert [parts[0]] + parts[1..] == parts;
    }
  }

  // ---------------------------------------------------------------- trim()

  /** s with its leading white space removed. */
  function TrimStart(s: string): (r: string)
    ensures |r| <= |s| && r == s[|s| - |r|..]
    ensures forall k :: 0 <= k < |s| - |r| ==> IsSpace(s[k])
    ensures r != [] ==> !IsSpace(r[0])
    ensures s != [] && IsSpace(s[0]) ==> |r| < |s|
  {
    if s != [] && IsSpace(s[0]) then TrimStart(s[1..]) else s
  }

  /** s with its trailing white space removed. */
  function TrimEnd(s: string): (r: string)
    ensures |r| <= |s| && r == s[..|r|]
    ensures forall k :: |r| <= k < |s| ==> IsSpace(s[k])
    ensures r != [] ==> !IsSpace(r[|r| - 1])
  {
    if s != [] && IsSpace(s[|s| - 1]) then TrimEnd(s[..|s| - 1]) else s
  }

  /** s.trim() */
  function Trim(s: string): (r: string)
    ensures var a := |s| - |TrimStart(s)|;
      && a + |r| <= |s| && r == s[a..a + |r|]
      && (forall k :: 0 <= k < a ==> IsSpace(s[k]))
      && (forall k :: a + |r| <= k < |s| ==> IsSpace(s[k]))
    ensures r != [] ==> !IsSpace(r[0]) && !IsSpace(r[|r| - 1])
  {
    TrimEnd(TrimStart(s))
  }

  // ------------------------------------------------------------ split(/\s+/)

  /** The characters of s that are not white space, in order. */
  function NonSpace(s: string): string
  {
    if s == [] then [] else (if IsSpace(s[0]) then [] else [s[0]]) + NonSpace(s[1..])
  }

  function Concat(fields: seq<string>): string
  {
    if fields == [] then [] else fields[0] + Concat(fields[1..])
  }

  /**
   * s.split(/\s+/): the fields between maximal runs of white space. A
   * leading or trailing run yields an empty first or last field, and the
   * empty string yields one empty field.
   */
  function SplitWs(s: string): (fields: seq<string>)
    ensures |fields| >= 1
    ensures forall k :: 0 <= k < |fields| ==> NoSpace(fields[k])
    ensures Concat(fields) == NonSpace(s)
    decreases |s|
  {
    if s == [] then [[]]
    else if IsSpace(s[0]) then
      var rest := SplitWs(TrimStart(s));
      NonSpaceSkipsRun(s);
      [[]] + rest
    else
      var rest := SplitWs(s[1..]);
      assert Concat(rest) == rest[0] + Concat(rest[1..]);
      [[s[0]] + rest[0]] + rest[1..]
  }

  lemma {:induction false} NonSpaceSkipsRun(s: string)
    ensures NonSpace(TrimStart(s)) == NonSpace(s)
  {
    if s != [] && IsSpace(s[0]) {
      NonSpaceSkipsRun(s[1..]);
    }
  }

  /** A trimmed, non-empty line splits into non-empty fields. */
  lemma {:induction false} TrimmedFieldsNonEmpty(s: string)
    requires s != [] && !IsSpace(s[0]) && !IsSpace(s[|s| - 1])
    ensures forall k :: 0 <= k < |SplitWs(s)| ==> SplitWs(s)[k] != []
    decreases |s|
  {
    if |s| > 1 {
      var t := s[1..];
      if IsSpace(t[0]) {
        var u := TrimStart(t);
        assert u != [] by {
          assert !IsSpace(t[|t| - 1]);
        }
        assert u[|u| - 1] == t[|t| - 1];
        TrimmedFieldsNonEmpty(u);
        var rest := SplitWs(t);
        assert rest == [[]] + SplitWs(u);
        assert rest[0] == [] && rest[1..] == SplitWs(u);
        assert SplitWs(s) == [[s[0]] + rest[0]] + rest[1..];
      } else {
        TrimmedFieldsNonEmpty(t);
      }
    }
  }

  /** A string without white space is a single field. */
  lemma {:induction false} SplitWsPlain(w: string)
    requires NoSpace(w)
    ensures SplitWs(w) == [w]
    decreases |w|
  {
    if w != [] {
      SplitWsPlain(w[1..]);
      assert [w[0]] + w[1..] == w;
    }
  }

  /** Trimming the start removes exactly a leading run of white space. */
  lemma {:induction false} TrimStartRun(run: string, t: string)
    requires forall k :: 0 <= k < |run| ==> IsSpace(run[k])
    requires t == [] || !IsSpace(t[0])
    ensures TrimStart(run + t) == t
    decreases |run|
  {
    if run != [] {
      assert (run + t)[1..] == run[1..] + t;
      TrimStartRun(run[1..], t);
    }
  }

  /**
   * A maximal run of white space ends a field: the text before it is one
   * field and the fields after it are those of the rest.
   */
  lemma {:induction false} SplitWsAtRun(w: string, run: string, t: string)
    requires NoSpace(w)
    requires run != [] && forall k :: 0 <= k < |run| ==> IsSpace(run[k])
    requires t == [] || !IsSpace(t[0])
    ensures SplitWs(w + run + t) == [w] + SplitWs(t)
    decreases |w|
  {
    var s := w + run + t;
    if w == [] {
      assert s == run + t;
      TrimStartRun(run, t);
    } else {
      assert s[1..] == w[1..] + run + t;
      SplitWsAtRun(w[1..], run, t);
      assert [w[0]] + w[1..] == w;
    }
  }

  /** Text up to the first white-space character is the first of several fields. */
  lemma {:induction false} FirstFieldBeforeSpace(w: string, c: char, x: string)
    requires NoSpace(w) && IsSpace(c)
    ensures |SplitWs(w + [c] + x)| >= 2 && SplitWs(w + [c] + x)[0] == w
    decreases |w|
  {
    var s := w + [c] + x;
    if w != [] {
      assert s[1..] == w[1..] + [c] + x;
      FirstFieldBeforeSpace(w[1..], c, x);
      assert [w[0]] + w[1..] == w;
    }
  }

  /** When a string has a second field, white space follows its first field. */
  lemma {:induction false} SpaceAfterFirstField(s: string)
    requires |SplitWs(s)| >= 2
    ensures var f := SplitWs(s)[0]; |s| > |f| && s[..|f|] == f && IsSpace(s[|f|])
    decreases |s|
  {
    if s != [] && !IsSpace(s[0]) {
      var rest := SplitWs(s[1..]);
      SpaceAfterFirstField(s[1..]);
      var f := [s[0]] + rest[0];
      assert s[..|f|] == [s[0]] + s[1..][..|rest[0]|];
    }
  }

  /** The regular expression /^kw\s/ applied to a line. */
  predicate HasKeyword(line: string, kw: string)
  {
    |line| > |kw| && line[..|kw|] == kw && IsSpace(line[|kw|])
  }

  /**
   * The keyword test agrees with the field split: /^kw\s/ matches exactly
   * when the line has at least two fields and the first one is kw.
   */
  lemma KeywordIsFirstField(line: string, kw: string)
    requires NoSpace(kw)
    ensures HasKeyword(line, kw) <==> |SplitWs(line)| >= 2 && SplitWs(line)[0] == kw
  {
    if HasKeyword(line, kw) {
      var n := |kw|;
      assert line == kw + [line[n]] + line[n + 1..];
      FirstFieldBeforeSpace(kw, line[n], line[n + 1..]);
    }
    if |SplitWs(line)| >= 2 && SplitWs(line)[0] == kw {
      SpaceAfterFirstField(line);
    }
  }

  // ---------------------------------------------------------------- Number()

  predicate IsDigit(c: char) { '0' <= c <= '9' }

  predicate AllDigits(s: string)
  {
    forall k :: 0 <= k < |s| ==> IsDigit(s[k])
  }

  function DigitsValue(s: string): nat
    requires AllDigits(s)
  {
    if s == [] then 0
    else DigitsValue(s[..|s| - 1]) * 10 + (s[|s| - 1] as int - '0' as int)
  }

  /**
   * Number(s) for the fields of a face token: "" is 0, an optional sign
   * followed by decimal digits is that integer, anything else is NaN (None).
   */
  function ToNumber(s: string): (n: Option<int>)
    ensures s == [] ==> n == Some(0)
    ensures n.Some? && s != [] ==> exists k :: 0 <= k < |s| && IsDigit(s[k])
  {
    if s == [] then Some(0)
    else if (s[0] == '-' || s[0] == '+') && |s| > 1 && AllDigits(s[1..]) then
      assert IsDigit(s[1..][0]);
      Some(if s[0] == '-' then -(DigitsValue(s[1..]) as int) else DigitsValue(s[1..]))
    else if AllDigits(s) then
      assert IsDigit(s[0]);
      Some(DigitsValue(s))
    else None
  }

  /** The decimal numeral of n, as a .obj file writes a vertex number. */
  function Decimal(n: nat): (s: string)
    ensures s != [] && AllDigits(s)
  {
    var d := [('0' as int + n % 10) as char];
    if n < 10 then d else Decimal(n / 10) + d
  }

  lemma {:induction false} DigitsOfDecimal(n: nat)
    ensures DigitsValue(Decimal(n)) == n
  {
    var d := [('0' as int + n % 10) as char];
    if n >= 10 {
      DigitsOfDecimal(n / 10);
      var s := Decimal(n / 10) + d;
      assert s[..|s| - 1] == Decimal(n / 10);
    }
  }

  /** Number() reads back every numeral Decimal writes, signed or not. */
  lemma NumberOfDecimal(n: nat)
    ensures ToNumber(Decimal(n)) == Some(n)
    ensures ToNumber("-" + Decimal(n)) == Some(-(n as int))
  {
    DigitsOfDecimal(n);
    var neg := "-" + Decimal(n);
    assert neg[1..] == Decimal(n);
    assert Decimal(n)[0] != '-' && Decimal(n)[0] != '+' by {
      assert IsDigit(Decimal(n)[0]);
    }
  }
}
