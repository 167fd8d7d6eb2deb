/** The string operations of the portal's Python code, as functions over `seq<char>`:
    `str.split(sep)`, `sep.join(parts)`, `str.strip()` and decimal integers. */
module Text {

  datatype Option<+T> = None | Some(value: T)

  // ── split and join on a one-character separator ────────────────────────────

  /** `s.split(sep)`: always at least one part; the empty string gives one empty part. */
  function Split(s: string, sep: char): (parts: seq<string>)
    ensures |parts| >= 1
  {
    if s == "" then [""] else Prepend(s[0], Split(s[1..], sep), sep)
  }

  /** The split of a string grown by one character in front. */
  function Prepend(c: char, parts: seq<string>, sep: char): (r: seq<string>)
    requires parts != []
    ensures r != []
  {
    if c == sep then [""] + parts else [[c] + parts[0]] + parts[1..]
  }

  /** `sep.join(parts)`. */
  function Join(parts: seq<string>, sep: char): string
  {
    if |parts| == 0 then ""
    else if |parts| == 1 then parts[0]
    else parts[0] + [sep] + Join(parts[1..], sep)
  }

  predicate NoneContains(parts: seq<string>, c: char)
  {
    forall i :: 0 <= i < |parts| ==> c !in parts[i]
  }

  lemma {:induction false} SplitPartsFree(s: string, sep: char)
    ensures NoneContains(Split(s, sep), sep)
  {
    if s != "" { SplitPartsFree(s[1..], sep); }
  }

  lemma {:induction false} SplitOfFree(s: string, sep: char)
    requires sep !in s
    ensures Split(s, sep) == [s]
  {
    if s != "" {
      SplitOfFree(s[1..], sep);
      assert [s[0]] + s[1..] == s;
    }
  }

  /** Splitting a concatenation around one separator concatenates the two splits. */
  lemma {:induction false} SplitAround(a: string, b: string, sep: char)
    ensures Split(a + [sep] + b, sep) == Split(a, sep) + Split(b, sep)
  {
    var s := a + [sep] + b;
    if a == "" {
      assert s[1..] == b;
    } else {
      assert s[1..] == a[1..] + [sep] + b;
      SplitAround(a[1..], b, sep);
    }
  }

  /** Joining what was split gives the string back. */
  lemma {:induction false} JoinSplit(s: string, sep: char)
    ensures Join(Split(s, sep), sep) == s
  {
    if s != "" {
      var rest := Split(s[1..], sep);
      JoinSplit(s[1..], sep);
      if s[0] != sep {
        var parts := Split(s, sep);
        if |rest| > 1 {
          assert parts[1..] == rest[1..];
          assert Join(parts, sep) == [s[0]] + (rest[0] + [sep] + Join(rest[1..], sep));
        }
      } else {
        assert ([""] + rest)[1..] == rest;
      }
    }
  }

  /** Splitting what was joined gives the parts back, when no part holds the separator. */
  lemma {:induction false} SplitJoin(parts: seq<string>, sep: char)
    requires |parts| >= 1 && NoneContains(parts, sep)
    ensures Split(Join(parts, sep), sep) == parts
  {
    SplitOfFree(parts[0], sep);
    if |parts| > 1 {
      SplitJoin(parts[1..], sep);
      SplitAround(parts[0], Join(parts[1..], sep), sep);
    }
  }

  lemma {:induction false} JoinConcat(a: seq<string>, b: seq<string>, sep: char)
    requires a != [] && b != []
    ensures Join(a + b, sep) == Join(a, sep) + [sep] + Join(b, sep)
  {
    if |a| == 1 {
      assert (a + b)[1..] == b;
    } else {
      assert (a + b)[1..] == a[1..] + b;
      JoinConcat(a[1..], b, sep);
    }
  }

  /** A character other than the separator is in some part exactly when it is in the string. */
  lemma {:induction false} SplitKeepsChars(s: string, sep: char, c: char)
    requires c != sep
    ensures c !in s ==> NoneContains(Split(s, sep), c)
  {
    if s != "" { SplitKeepsChars(s[1..], sep, c); }
  }

  // ── parts by position ──────────────────────────────────────────────────────

  /** `part` stands at index `i`, between separators or the ends of the string. */
  predicate PartAt(s: string, sep: char, i: nat, part: string)
  {
    && i + |part| <= |s| && s[i..i + |part|] == part && sep !in part
    && (i == 0 || s[i - 1] == sep) && (i + |part| == |s| || s[i + |part|] == sep)
  }

  lemma PartShifts(front: string, sep: char, tail: string, i: nat, part: string)
    requires PartAt(tail, sep, i, part)
    ensures PartAt(front + [sep] + tail, sep, |front| + 1 + i, part)
  {
    var s := front + [sep] + tail;
    assert s[|front| + 1..] == tail;
    assert forall k :: 0 <= k < |tail| ==> s[|front| + 1 + k] == tail[k];
    assert s[|front| + 1 + i..|front| + 1 + i + |part|] == tail[i..i + |part|];
  }

  lemma {:induction false} JoinedPartPosition(parts: seq<string>, sep: char, part: string) returns (i: nat)
    requires part in parts && NoneContains(parts, sep)
    ensures PartAt(Join(parts, sep), sep, i, part)
  {
    if parts[0] == part {
      i := 0;
    } else {
      var j := JoinedPartPosition(parts[1..], sep, part);
      PartShifts(parts[0], sep, Join(parts[1..], sep), j, part);
      i := |parts[0]| + 1 + j;
    }
  }

  lemma PartAtIsPart(s: string, sep: char, i: nat, part: string)
    requires PartAt(s, sep, i, part)
    ensures part in Split(s, sep)
  {
    var tail := s[i..];
    SplitOfFree(part, sep);
    if i + |part| < |s| {
      assert tail == part + [sep] + s[i + |part| + 1..];
      SplitAround(part, s[i + |part| + 1..], sep);
    } else {
      assert tail == part;
    }
    assert Split(tail, sep)[0] == part;
    if i > 0 {
      assert s == s[..i - 1] + [sep] + tail;
      SplitAround(s[..i - 1], tail, sep);
      assert Split(s, sep)[|Split(s[..i - 1], sep)|] == part;
    } else {
      assert tail == s;
    }
  }

  /** The parts of a split are exactly the pieces that stand between separators or the ends. */
  lemma PartsByPosition(s: string, sep: char, part: string)
    ensures part in Split(s, sep) <==> exists i: nat :: PartAt(s, sep, i, part)
  {
    if part in Split(s, sep) {
      SplitPartsFree(s, sep);
      JoinSplit(s, sep);
      var i := JoinedPartPosition(Split(s, sep), sep, part);
    }
    if i: nat :| PartAt(s, sep, i, part) { PartAtIsPart(s, sep, i, part); }
  }

  /** The text before and after the first `c`, as `str.partition(c)` and `str.split(c, 1)` cut it. */
  function Partition(s: string, c: char): (r: (string, string))
    requires c in s
    ensures s == r.0 + [c] + r.1 && c !in r.0
  {
    if s[0] == c then ("", s[1..])
    else
      var rest := Partition(s[1..], c);
      ([s[0]] + rest.0, rest.1)
  }

  /** The cut is the only one with no `c` before it. */
  lemma {:induction false} PartitionOf(a: string, c: char, b: string)
    requires c !in a
    ensures Partition(a + [c] + b, c) == (a, b)
  {
    var s := a + [c] + b;
    if a != "" {
      PartitionOf(a[1..], c, b);
      assert s[1..] == a[1..] + [c] + b;
      assert [a[0]] + a[1..] == a;
    }
  }

  // ── strip ──────────────────────────────────────────────────────────────────

  /** `str.isspace()` for one character: the characters `str.strip()` removes. */
  predicate IsSpace(c: char)
  {
    '\t' <= c <= '\r' || '\U{1c}' <= c <= ' ' || c == '\U{85}' || c == '\U{a0}' || c == '\U{1680}'
    || '\U{2000}' <= c <= '\U{200a}' || c == '\U{2028}' || c == '\U{2029}' || c == '\U{202f}'
    || c == '\U{205f}' || c == '\U{3000}'
  }

  /** Below 128 these are the space, the five controls from tab to carriage return, and the four
      information separators. */
  lemma AsciiSpaces(c: char)
    requires c < '\U{80}'
    ensures IsSpace(c) <==> c in " \t\n\U{b}\U{c}\r\U{1c}\U{1d}\U{1e}\U{1f}"
  {
  }

  function LStrip(s: string): string
  {
    if s != "" && IsSpace(s[0]) then LStrip(s[1..]) else s
  }

  function RStrip(s: string): string
  {
    if s != "" && IsSpace(s[|s| - 1]) then RStrip(s[..|s| - 1]) else s
  }

  function Strip(s: string): string { RStrip(LStrip(s)) }

  /** `[v.strip() for v in parts]`. */
  function Stripped(parts: seq<string>): seq<string>
  {
    seq(|parts|, i requires 0 <= i < |parts| => Strip(parts[i]))
  }

  /** Left stripping cuts a run of white space off the front. */
  lemma {:induction false} LStripShape(s: string)
    ensures |LStrip(s)| <= |s| && LStrip(s) == s[|s| - |LStrip(s)|..]
    ensures LStrip(s) != "" ==> !IsSpace(LStrip(s)[0])
    ensures forall i :: 0 <= i < |s| - |LStrip(s)| ==> IsSpace(s[i])
  {
    if s != "" && IsSpace(s[0]) {
      var t := s[1..];
      LStripShape(t);
      assert s[|s| - |LStrip(t)|..] == t[|t| - |LStrip(t)|..];
      forall i | 0 <= i < |s| - |LStrip(t)| ensures IsSpace(s[i]) {
        if i > 0 { assert s[i] == t[i - 1]; }
      }
    } else {
      assert s[0..] == s;
    }
  }

  /** Right stripping cuts a run of white space off the end. */
  lemma {:induction false} RStripShape(s: string)
    ensures |RStrip(s)| <= |s| && RStrip(s) == s[..|RStrip(s)|]
    ensures RStrip(s) != "" ==> !IsSpace(RStrip(s)[|RStrip(s)| - 1])
    ensures forall i :: |RStrip(s)| <= i < |s| ==> IsSpace(s[i])
  {
    if s != "" && IsSpace(s[|s| - 1]) {
      var t := s[..|s| - 1];
      RStripShape(t);
      assert s[..|RStrip(t)|] == t[..|RStrip(t)|];
      forall i | |RStrip(t)| <= i < |s| ensures IsSpace(s[i]) {
        if i < |t| { assert s[i] == t[i]; }
      }
    }
  }

  /** A string that neither starts nor ends with white space is left alone by `strip`. */
  predicate Trimmed(s: string)
  {
    s != "" ==> !IsSpace(s[0]) && !IsSpace(s[|s| - 1])
  }

  lemma StripTrimmed(s: string)
    requires Trimmed(s)
    ensures Strip(s) == s && LStrip(s) == s
  {
  }

  lemma StripIsTrimmed(s: string)
    ensures Trimmed(Strip(s))
  {
    var l := LStrip(s);
    LStripShape(s);
    RStripShape(l);
    if Strip(s) != "" { assert Strip(s)[0] == l[0]; }
  }

  /** Stripping removes white space only. */
  lemma StripKeeps(s: string, c: char)
    ensures c in Strip(s) ==> c in s
    ensures !IsSpace(c) && c in s ==> c in Strip(s)
  {
    var l := LStrip(s);
    LStripShape(s);
    RStripShape(l);
    if !IsSpace(c) && c in s {
      var i :| 0 <= i < |s| && s[i] == c;
      assert i >= |s| - |l| && l[i - (|s| - |l|)] == c;
      assert Strip(s)[i - (|s| - |l|)] == c;
    }
  }

  predicate AllSpaces(s: string) { forall i :: 0 <= i < |s| ==> IsSpace(s[i]) }

  lemma {:induction false} LStripOfPadded(left: string, t: string)
    requires AllSpaces(left) && t != "" && !IsSpace(t[0])
    ensures LStrip(left + t) == t
  {
    if left == "" {
      assert left + t == t;
    } else {
      assert (left + t)[1..] == left[1..] + t;
      LStripOfPadded(left[1..], t);
    }
  }

  lemma {:induction false} RStripOfPadded(t: string, right: string)
    requires AllSpaces(right) && t != "" && !IsSpace(t[|t| - 1])
    ensures RStrip(t + right) == t
  {
    if right == "" {
      assert t + right == t;
    } else {
      var s := t + right;
      assert s[..|s| - 1] == t + right[..|right| - 1];
      RStripOfPadded(t, right[..|right| - 1]);
    }
  }

  /** Stripping takes off exactly the white space around a text. */
  lemma StripPadded(left: string, t: string, right: string)
    requires AllSpaces(left) && AllSpaces(right) && t != "" && Trimmed(t)
    ensures Strip(left + t + right) == t
  {
    LStripOfPadded(left, t + right);
    assert left + (t + right) == left + t + right;
    RStripOfPadded(t, right);
  }

  lemma {:induction false} StripOnlySpaces(s: string)
    requires AllSpaces(s)
    ensures Strip(s) == "" && LStrip(s) == ""
  {
    if s != "" { StripOnlySpaces(s[1..]); }
  }

  // ── decimal integers ───────────────────────────────────────────────────────

  predicate IsDigit(c: char) { '0' <= c <= '9' }

  predicate AllDigits(s: string) { forall i :: 0 <= i < |s| ==> IsDigit(s[i]) }

  /** `str(n)` for a non-negative integer. */
  function Decimal(n: nat): (s: string)
    ensures s != "" && AllDigits(s)
  {
    var d := [('0' as int + n % 10) as char];
    if n < 10 then d else Decimal(n / 10) + d
  }

  function DigitsValue(s: string): nat
    requires AllDigits(s)
  {
    if s == "" then 0 else 10 * DigitsValue(s[..|s| - 1]) + (s[|s| - 1] as int - '0' as int)
  }

  lemma {:induction false} DecimalValue(n: nat)
    ensures DigitsValue(Decimal(n)) == n
  {
    if n >= 10 {
      DecimalValue(n / 10);
      var s := Decimal(n);
      assert s[..|s| - 1] == Decimal(n / 10);
    }
  }

  /** `int(s)` on ASCII text: white space around, one sign, digits with single underscores
      between them; `None` where Python raises `ValueError`. */
  function ParseInt(s: string): Option<int>
  {
    var t := Strip(s);
    var signed := t != "" && (t[0] == '-' || t[0] == '+');
    var body := if signed then t[1..] else t;
    var groups := Split(body, '_');
    if DigitGroups(groups) then
      var digits := Flatten(groups);
      var n: int := DigitsValue(digits);
      Some(if signed && t[0] == '-' then -n else n)
    else None
  }

  predicate DigitGroups(groups: seq<string>)
  {
    forall i :: 0 <= i < |groups| ==> groups[i] != "" && AllDigits(groups[i])
  }

  function Flatten(groups: seq<string>): (s: string)
    ensures DigitGroups(groups) ==> AllDigits(s)
  {
    if groups == [] then "" else groups[0] + Flatten(groups[1..])
  }

  lemma ParseDigits(s: string)
    requires s != "" && AllDigits(s) && Strip(s) == s && Split(s, '_') == [s]
    ensures ParseInt(s) == Some(DigitsValue(s))
  {
    assert IsDigit(s[0]);
    assert DigitGroups([s]);
    FlattenOne(s);
  }

  lemma FlattenOne(s: string)
    ensures Flatten([s]) == s
  {
    assert [s][1..] == [];
  }

  /** Reading back what `str` printed. */
  lemma ParseDecimal(n: nat)
    ensures ParseInt(Decimal(n)) == Some(n)
  {
    var s := Decimal(n);
    assert IsDigit(s[0]) && IsDigit(s[|s| - 1]);
    StripTrimmed(s);
    SplitOfFree(s, '_');
    DecimalValue(n);
    ParseDigits(s);
  }

  /** The digits are worth 0 to 9, and each further one makes what stands before it ten times as much. */
  lemma DigitWorth(s: string, c: char)
    requires AllDigits(s) && IsDigit(c)
    ensures AllDigits(s + [c]) && exists d :: 0 <= d < 10 && "0123456789"[d] == c && DigitsValue(s + [c]) == 10 * DigitsValue(s) + d
  {
    var d := c as int - '0' as int;
    assert "0123456789"[d] == c;
    assert (s + [c])[..|s|] == s;
  }

  lemma LastDigit(m: nat, c: char)
    requires m > 0 && IsDigit(c)
    ensures Decimal(10 * m + (c as int - '0' as int)) == Decimal(m) + [c]
  {
    var n := 10 * m + (c as int - '0' as int);
    assert n / 10 == m && n % 10 == c as int - '0' as int;
  }

  /** Printing gives the one digit string of that worth without a leading zero. */
  lemma {:induction false} DecimalIsCanonical(s: string)
    requires s != "" && AllDigits(s) && (|s| > 1 ==> s[0] != '0')
    ensures Decimal(DigitsValue(s)) == s
    ensures s[0] != '0' ==> DigitsValue(s) > 0
  {
    var init, last := s[..|s| - 1], s[|s| - 1];
    assert s == init + [last] && IsDigit(last);
    if init == "" {
      assert DigitsValue(init) == 0;
    } else {
      DecimalIsCanonical(init);
      LastDigit(DigitsValue(init), last);
    }
  }

  lemma {:induction false} NoLeadingZero(n: nat)
    ensures Decimal(n)[0] == '0' ==> n == 0
  {
    if n >= 10 { NoLeadingZero(n / 10); }
  }

  /** White space around a number does not matter. */
  lemma ParsePadded(left: string, t: string, right: string)
    requires AllSpaces(left) && AllSpaces(right) && t != "" && Trimmed(t)
    ensures ParseInt(left + t + right) == ParseInt(t)
  {
    StripPadded(left, t, right);
    StripTrimmed(t);
  }

  lemma {:induction false} JoinedDigits(groups: seq<string>)
    requires groups != [] && DigitGroups(groups)
    ensures var s := Join(groups, '_'); s != "" && IsDigit(s[0]) && IsDigit(s[|s| - 1])
  {
    if |groups| > 1 { JoinedDigits(groups[1..]); }
  }

  /** Single underscores between the digits. */
  lemma ParseGroups(groups: seq<string>)
    requires groups != [] && DigitGroups(groups)
    ensures ParseInt(Join(groups, '_')) == Some(DigitsValue(Flatten(groups)))
  {
    SplitJoin(groups, '_');
    JoinedDigits(groups);
    StripTrimmed(Join(groups, '_'));
  }

  /** One sign in front. */
  lemma ParseSigned(sign: char, groups: seq<string>)
    requires (sign == '+' || sign == '-') && groups != [] && DigitGroups(groups)
    ensures ParseInt([sign] + Join(groups, '_')) ==
            Some(if sign == '-' then -(DigitsValue(Flatten(groups)) as int) else DigitsValue(Flatten(groups)))
  {
    var body := Join(groups, '_');
    SplitJoin(groups, '_');
    JoinedDigits(groups);
    var t := [sign] + body;
    assert t[|t| - 1] == body[|body| - 1] && t[1..] == body;
    StripTrimmed(t);
  }

  /** Everything else is refused. */
  lemma ParsedIsNumeral(s: string)
    requires ParseInt(s).Some?
    ensures Strip(s) != ""
    ensures exists groups :: (groups != [] && DigitGroups(groups)
              && (Strip(s) == Join(groups, '_') || (Strip(s)[0] in "+-" && Strip(s)[1..] == Join(groups, '_'))))
  {
    var t := Strip(s);
    var body := if t != "" && (t[0] == '-' || t[0] == '+') then t[1..] else t;
    JoinSplit(body, '_');
    var groups := Split(body, '_');
    assert groups != [] && DigitGroups(groups) && body == Join(groups, '_');
    JoinedDigits(groups);
  }
}
