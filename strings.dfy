/**
 * The behaviour of the Rust standard-library text operations that the todo store's file
 * format and console input rely on: `str::split`, `join`, `BufRead::lines`,
 * `BufRead::read_line`, `str::trim`, `u32`/`bool` parsing and display, and `str::len`.
 */
module Strings {
  import opened Results

  const U32_MAX: int := 0xFFFF_FFFF

  /** Rust's `u32`. */
  type u32 = n: int | 0 <= n <= U32_MAX

  /** Number of occurrences of `c` in `s`. */
  function Occurrences(s: string, c: char): nat
  {
    if s == [] then 0 else (if s[0] == c then 1 else 0) + Occurrences(s[1..], c)
  }

  /** A character occurs no more often than the text is long, and not at all exactly when it is absent. */
  lemma {:induction false} OccurrencesBounds(s: string, c: char)
    ensures Occurrences(s, c) <= |s|
    ensures Occurrences(s, c) == 0 <==> c !in s
    decreases |s|
  {
    if s != [] {
      OccurrencesBounds(s[1..], c);
      assert s == [s[0]] + s[1..];
    }
  }

  /** `parts.join(sep)`: the parts with one `sep` between neighbours; no parts give "". */
  function Join(parts: seq<string>, sep: char): string
  {
    if |parts| == 0 then []
    else if |parts| == 1 then parts[0]
    else parts[0] + [sep] + Join(parts[1..], sep)
  }

  /**
   * `s.split(sep)`: the pieces between the occurrences of `sep`, one more piece than there
   * are separators (so "" gives [""] and "a," gives ["a", ""]).
   */
  function Split(s: string, sep: char): (parts: seq<string>)
    ensures |parts| >= 1
    decreases |s|
  {
    if s == [] then [[]]
    else
      var rest := Split(s[1..], sep);
      if s[0] == sep then [[]] + rest
      else [[s[0]] + rest[0]] + rest[1..]
  }

  /** A split yields one more piece than there are separators. */
  lemma {:induction false} SplitCount(s: string, sep: char)
    ensures |Split(s, sep)| == Occurrences(s, sep) + 1
    decreases |s|
  {
    if s != [] {
      SplitCount(s[1..], sep);
    }
  }

  /** No piece of a split holds the separator. */
  lemma {:induction false} SplitPartsFree(s: string, sep: char)
    ensures forall k :: 0 <= k < |Split(s, sep)| ==> sep !in Split(s, sep)[k]
    decreases |s|
  {
    if s != [] {
      var rest := Split(s[1..], sep);
      SplitPartsFree(s[1..], sep);
      if s[0] != sep {
        var parts := [[s[0]] + rest[0]] + rest[1..];
        assert forall k :: 1 <= k < |parts| ==> parts[k] == rest[k];
      }
    }
  }

  /** Joining a list of parts: its first part, then the join of the rest after a separator. */
  lemma JoinFront(x: string, tail: seq<string>, sep: char)
    ensures Join([x] + tail, sep) == x + (if tail == [] then [] else [sep] + Join(tail, sep))
  {
    assert ([x] + tail)[1..] == tail;
  }

  /** Putting a character in front of the first part puts it in front of the join. */
  lemma JoinConsHead(c: char, parts: seq<string>, sep: char)
    requires |parts| >= 1
    ensures Join([[c] + parts[0]] + parts[1..], sep) == [c] + Join(parts, sep)
  {
    var head, tail := parts[0], parts[1..];
    assert parts == [head] + tail;
    JoinFront(head, tail, sep);
    JoinFront([c] + head, tail, sep);
  }

  /** Joining the pieces of a split with the same separator gives the text back. */
  lemma {:induction false} JoinSplit(s: string, sep: char)
    ensures Join(Split(s, sep), sep) == s
    decreases |s|
  {
    if s != [] {
      var rest := Split(s[1..], sep);
      JoinSplit(s[1..], sep);
      if s[0] == sep {
        JoinFront([], rest, sep);
      } else {
        JoinConsHead(s[0], rest, sep);
      }
      assert [s[0]] + s[1..] == s;
    }
  }

  /** A piece free of separators splits to itself. */
  lemma {:induction false} SplitWithout(s: string, sep: char)
    requires sep !in s
    ensures Split(s, sep) == [s]
  {
    var parts := Split(s, sep);
    JoinSplit(s, sep);
    SplitCount(s, sep);
    OccurrencesBounds(s, sep);
    assert |parts| == 1;
    assert Join(parts, sep) == parts[0];
  }

  /** Splitting around one separator splits each side independently. */
  lemma {:induction false} SplitAround(a: string, b: string, sep: char)
    ensures Split(a + [sep] + b, sep) == Split(a, sep) + Split(b, sep)
    decreases |a|
  {
    var s := a + [sep] + b;
    if a == [] {
      assert s[1..] == b;
    } else {
      assert s[1..] == a[1..] + [sep] + b;
      SplitAround(a[1..], b, sep);
    }
  }

  /** Splitting a join of separator-free parts gives the parts back. */
  lemma {:induction false} SplitJoin(parts: seq<string>, sep: char)
    requires |parts| >= 1
    requires forall k :: 0 <= k < |parts| ==> sep !in parts[k]
    ensures Split(Join(parts, sep), sep) == parts
    decreases |parts|
  {
    if |parts| == 1 {
      SplitWithout(parts[0], sep);
    } else {
      SplitJoin(parts[1..], sep);
      SplitAround(parts[0], Join(parts[1..], sep), sep);
      SplitWithout(parts[0], sep);
      assert [parts[0]] + parts[1..] == parts;
    }
  }

  /** The last piece of a split is empty exactly when the text is empty or ends in the separator. */
  lemma {:induction false} SplitLastEmpty(s: string, sep: char)
    ensures var parts := Split(s, sep);
      parts[|parts| - 1] == [] <==> s == [] || s[|s| - 1] == sep
    decreases |s|
  {
    if s != [] {
      var rest := Split(s[1..], sep);
      SplitLastEmpty(s[1..], sep);
      if s[0] != sep && |rest| == 1 {
        SplitCount(s[1..], sep);
        OccurrencesBounds(s[1..], sep);
        assert s[1..] != [] ==> s[|s| - 1] == s[1..][|s| - 2];
      }
    }
  }

  /** Removes one `\r` at the end of a line, as `BufRead::lines` does before a `\n`. */
  function StripCR(line: string): (r: string)
    ensures r == line || r + "\r" == line
  {
    if |line| > 0 && line[|line| - 1] == '\r' then line[..|line| - 1] else line
  }

  /**
   * `BufRead::lines` over a whole text: the pieces between `\n`s with one trailing `\r`
   * dropped from each piece that a `\n` ended, and no line for an empty final piece
   * (so "" has no lines and "a\n" has the one line "a").
   */
  function Lines(s: string): (lines: seq<string>)
    ensures forall k :: 0 <= k < |lines| ==> '\n' !in lines[k]
    ensures |lines| == Occurrences(s, '\n') + (if s == [] || s[|s| - 1] == '\n' then 0 else 1)
  {
    var parts := Split(s, '\n');
    SplitCount(s, '\n');
    SplitLastEmpty(s, '\n');
    SplitPartsFree(s, '\n');
    var last := parts[|parts| - 1];
    seq(|parts| - 1, k requires 0 <= k < |parts| - 1 => StripCR(parts[k]))
      + (if last == [] then [] else [last])
  }

  /**
   * Joining lines with `\n` and reading them back with `Lines` gives them back, except that
   * an empty last line is not yielded; no line may hold a `\n`, and none but the last may
   * end in `\r`.
   */
  lemma {:induction false} LinesOfJoin(ls: seq<string>)
    requires |ls| >= 1
    requires forall k :: 0 <= k < |ls| ==> '\n' !in ls[k]
    requires forall k :: 0 <= k < |ls| - 1 ==> StripCR(ls[k]) == ls[k]
    ensures Lines(Join(ls, '\n')) == if ls[|ls| - 1] == [] then ls[..|ls| - 1] else ls
  {
    var s := Join(ls, '\n');
    SplitJoin(ls, '\n');
    assert Split(s, '\n') == ls;
    var n := |ls|;
    var init := seq(n - 1, k requires 0 <= k < n - 1 => StripCR(ls[k]));
    forall k | 0 <= k < n - 1 ensures init[k] == ls[k] {
    }
    assert init == ls[..n - 1];
    assert Lines(s) == init + (if ls[n - 1] == [] then [] else [ls[n - 1]]);
    assert ls[..n - 1] + [ls[n - 1]] == ls;
  }

  /** `BufRead::read_line` on a whole text: everything up to and including the first `\n`. */
  function FirstLine(s: string): (r: string)
    ensures r <= s
    ensures '\n' in s ==> |r| > 0 && r[|r| - 1] == '\n' && '\n' !in r[..|r| - 1]
    ensures '\n' !in s ==> r == s
  {
    var parts := Split(s, '\n');
    SplitCount(s, '\n');
    OccurrencesBounds(s, '\n');
    if |parts| == 1 then s
    else
      SplitPartsFree(s, '\n');
      JoinSplit(s, '\n');
      assert s == parts[0] + "\n" + Join(parts[1..], '\n');
      parts[0] + "\n"
  }

  /** Rust's `char::is_whitespace`: the Unicode White_Space property. */
  predicate IsWhitespace(c: char)
  {
    ('\t' <= c <= '\r') || c == ' ' || c == '\U{0085}' || c == '\U{00A0}' || c == '\U{1680}'
    || ('\U{2000}' <= c <= '\U{200A}') || c == '\U{2028}' || c == '\U{2029}'
    || c == '\U{202F}' || c == '\U{205F}' || c == '\U{3000}'
  }

  /** `str::trim_start`. */
  function TrimStart(s: string): string
  {
    if s != [] && IsWhitespace(s[0]) then TrimStart(s[1..]) else s
  }

  /** `str::trim_end`. */
  function TrimEnd(s: string): string
  {
    if s != [] && IsWhitespace(s[|s| - 1]) then TrimEnd(s[..|s| - 1]) else s
  }

  /** `str::trim`. */
  function Trim(s: string): string
  {
    TrimEnd(TrimStart(s))
  }

  /** `trim_start` drops the whitespace at the front of the text, and nothing else. */
  lemma {:induction false} TrimStartSpec(s: string)
    ensures var r := TrimStart(s);
      && |r| <= |s| && r == s[|s| - |r|..]
      && (r == [] || !IsWhitespace(r[0]))
      && forall k :: 0 <= k < |s| - |r| ==> IsWhitespace(s[k])
  {
    if s != [] && IsWhitespace(s[0]) {
      var t := s[1..];
      var r := TrimStart(t);
      assert TrimStart(s) == r;
      TrimStartSpec(t);
      assert t[|t| - |r|..] == s[|s| - |r|..];
      forall k | 1 <= k < |s| - |r| ensures IsWhitespace(s[k]) {
        assert s[k] == t[k - 1];
      }
    }
  }

  /** `trim_end` drops the whitespace at the back of the text, and nothing else. */
  lemma {:induction false} TrimEndSpec(s: string)
    ensures var r := TrimEnd(s);
      && r <= s
      && (r == [] || !IsWhitespace(r[|r| - 1]))
      && forall k :: |r| <= k < |s| ==> IsWhitespace(s[k])
  {
    if s != [] && IsWhitespace(s[|s| - 1]) {
      TrimEndSpec(s[..|s| - 1]);
      forall k | |TrimEnd(s)| <= k < |s| - 1 ensures IsWhitespace(s[k]) {
        assert s[k] == s[..|s| - 1][k];
      }
    }
  }

  /**
   * `trim` leaves a text that neither starts nor ends in whitespace, and what it removed
   * from either end was whitespace: `s` is `lead` whitespace characters, then the result,
   * then whitespace.
   */
  lemma TrimSpec(s: string)
    ensures var lead, r := |s| - |TrimStart(s)|, Trim(s);
      && 0 <= lead <= lead + |r| <= |s| && s[lead..lead + |r|] == r
      && (forall k :: 0 <= k < lead ==> IsWhitespace(s[k]))
      && (forall k :: lead + |r| <= k < |s| ==> IsWhitespace(s[k]))
      && (r == [] || (!IsWhitespace(r[0]) && !IsWhitespace(r[|r| - 1])))
  {
    var t := TrimStart(s);
    TrimStartSpec(s);
    TrimEndSpec(t);
    TrimEndInside(s, |s| - |t|, t, TrimEnd(t));
  }

  /** What `trim_end` drops from a suffix `t` of `s` is whitespace of `s` itself. */
  lemma TrimEndInside(s: string, lead: nat, t: string, r: string)
    requires lead <= |s| && t == s[lead..] && r <= t
    requires forall k :: |r| <= k < |t| ==> IsWhitespace(t[k])
    ensures lead + |r| <= |s| && s[lead..lead + |r|] == r
    ensures forall k :: lead + |r| <= k < |s| ==> IsWhitespace(s[k])
  {
    forall k | lead + |r| <= k < |s| ensures IsWhitespace(s[k]) {
      assert s[k] == t[k - lead];
    }
  }

  /** A line that neither starts nor ends in whitespace comes back from `Trim` unchanged
      after `read_line` left its `\n` on it. */
  lemma TrimLine(s: string)
    requires |s| > 0 && !IsWhitespace(s[0]) && !IsWhitespace(s[|s| - 1])
    ensures Trim(s + "\n") == s
  {
    var t := s + "\n";
    assert TrimStart(t) == t;
    assert t[..|t| - 1] == s;
    assert TrimEnd(t) == TrimEnd(s);
  }

  predicate IsDigit(c: char)
  {
    '0' <= c <= '9'
  }

  predicate AllDigits(s: string)
  {
    forall k :: 0 <= k < |s| ==> IsDigit(s[k])
  }

  /** The value of a decimal digit string, most significant digit first. */
  function DigitsValue(s: string): nat
    requires AllDigits(s)
  {
    if s == [] then 0
    else DigitsValue(s[..|s| - 1]) * 10 + ((s[|s| - 1] as int) - ('0' as int))
  }

  /** `n.to_string()` for an unsigned integer: its decimal digits without leading zeros. */
  function Decimal(n: nat): (s: string)
    ensures |s| >= 1 && AllDigits(s)
    ensures DigitsValue(s) == n
    ensures |s| == 1 || s[0] != '0'
  {
    var d := (('0' as int) + n % 10) as char;
    if n < 10 then [d]
    else
      var s := Decimal(n / 10) + [d];
      assert s[..|s| - 1] == Decimal(n / 10);
      s
  }

  /**
   * `str::parse::<u32>`: an optional `+`, then one or more decimal digits whose value fits
   * in 32 bits. Leading zeros are accepted; a `-` never is.
   */
  function ParseU32(s: string): Option<u32>
  {
    var digits := if |s| > 0 && s[0] == '+' then s[1..] else s;
    if digits == [] || !AllDigits(digits) then None
    else if DigitsValue(digits) <= U32_MAX then Some(DigitsValue(digits))
    else None
  }

  /** Displaying a `u32` and parsing it back gives the same number. */
  lemma ParseDecimal(n: u32)
    ensures ParseU32(Decimal(n)) == Some(n)
    ensures ParseU32("+" + Decimal(n)) == Some(n)
  {
    var s := Decimal(n);
    assert s[0] != '+';
    assert ("+" + s)[1..] == s;
  }

  /** Rust's `Display` for `bool`. */
  function ShowBool(b: bool): string
  {
    if b then "true" else "false"
  }

  /** `str::parse::<bool>`: exactly "true" or "false". */
  function ParseBool(s: string): (r: Option<bool>)
    ensures r.Some? ==> s == ShowBool(r.value)
    ensures r.None? <==> s != "true" && s != "false"
  {
    if s == "true" then Some(true)
    else if s == "false" then Some(false)
    else None
  }

  /** Number of bytes of the UTF-8 encoding of `c`. */
  function Utf8Width(c: char): (n: nat)
    ensures 1 <= n <= 4
    ensures n == 1 <==> (c as int) < 0x80
  {
    if (c as int) < 0x80 then 1
    else if (c as int) < 0x800 then 2
    else if (c as int) < 0x1_0000 then 3
    else 4
  }

  /** `str::len`: the length in bytes of the UTF-8 encoding of `s`. */
  function Utf8Len(s: string): (n: nat)
    ensures |s| <= n <= 4 * |s|
    ensures n == |s| <==> forall k :: 0 <= k < |s| ==> (s[k] as int) < 0x80
  {
    if s == [] then 0
    else
      var n := Utf8Width(s[0]) + Utf8Len(s[1..]);
      assert forall k :: 1 <= k < |s| ==> s[k] == s[1..][k - 1];
      n
  }
}
