/**
 * The few Python string operations the configuration rules rely on:
 * `str.strip()`, `str.split(sep)` and `int(str)`, plus the zero-padded
 * two-digit rendering that `strftime('%H:%M:%S')` uses.
 */
module Text {
  import opened Wrappers

  /**
   * The characters Python's `str.isspace()` accepts, which `str.strip()` and
   * `int()` remove: the ASCII controls 9-13 and 28-31, the space, U+0085,
   * U+00A0, U+1680, U+2000-U+200A, U+2028, U+2029, U+202F, U+205F and U+3000.
   */
  predicate IsSpace(c: char)
  {
    || '\U{0009}' <= c <= '\U{000D}'
    || '\U{001C}' <= c <= '\U{0020}'
    || c == '\U{0085}' || c == '\U{00A0}' || c == '\U{1680}'
    || '\U{2000}' <= c <= '\U{200A}'
    || c == '\U{2028}' || c == '\U{2029}' || c == '\U{202F}' || c == '\U{205F}' || c == '\U{3000}'
  }

  predicate IsDigit(c: char)
  {
    '0' <= c <= '9'
  }

  predicate AllSpace(s: string)
  {
    forall i :: 0 <= i < |s| ==> IsSpace(s[i])
  }

  predicate AllDigits(s: string)
  {
    forall i :: 0 <= i < |s| ==> IsDigit(s[i])
  }

  /** `s.lstrip()`: the suffix left after the leading white space. */
  function TrimStart(s: string): (r: string)
    ensures |r| <= |s| && r == s[|s| - |r|..]
    ensures AllSpace(s[..|s| - |r|])
    ensures r != [] ==> !IsSpace(r[0])
  {
    if s != [] && IsSpace(s[0]) then TrimStart(s[1..]) else s
  }

  /** `s.rstrip()`: the prefix left before the trailing white space. */
  function TrimEnd(s: string): (r: string)
    ensures |r| <= |s| && r == s[..|r|]
    ensures AllSpace(s[|r|..])
    ensures r != [] ==> !IsSpace(r[|r| - 1])
  {
    if s != [] && IsSpace(s[|s| - 1]) then TrimEnd(s[..|s| - 1]) else s
  }

  /** `s.strip()`. */
  function Strip(s: string): string
  {
    TrimEnd(TrimStart(s))
  }

  /** Stripping surrounding white space off a string that has none at its ends leaves that string. */
  lemma {:induction false} StripPadded(pre: string, s: string, post: string)
    requires AllSpace(pre) && AllSpace(post)
    requires s != [] ==> !IsSpace(s[0]) && !IsSpace(s[|s| - 1])
    ensures Strip(pre + s + post) == s
  {
    if s == [] {
      assert pre + s + post == pre + post;
      assert AllSpace(pre + post);
      AllSpaceTrims(pre + post);
    } else {
      assert pre + s + post == pre + (s + post);
      assert (s + post)[0] == s[0];
      TrimStartPadded(pre, s + post);
      TrimEndPadded(s, post);
    }
  }

  lemma AllSpaceTrims(s: string)
    requires AllSpace(s)
    ensures Strip(s) == []
  {
  }

  lemma {:induction false} TrimStartPadded(pre: string, s: string)
    requires AllSpace(pre)
    requires s != [] ==> !IsSpace(s[0])
    ensures TrimStart(pre + s) == s
  {
    if pre != [] {
      assert (pre + s)[1..] == pre[1..] + s;
      TrimStartPadded(pre[1..], s);
    } else {
      assert pre + s == s;
    }
  }

  lemma {:induction false} TrimEndPadded(s: string, post: string)
    requires AllSpace(post)
    requires s != [] ==> !IsSpace(s[|s| - 1])
    ensures TrimEnd(s + post) == s
  {
    if post != [] {
      var n := |post| - 1;
      assert (s + post)[..|s + post| - 1] == s + post[..n];
      TrimEndPadded(s, post[..n]);
    } else {
      assert s + post == s;
    }
  }

  /** Does `sep` occur in `s` at index `i`? */
  predicate OccursAt(s: string, sep: string, i: nat)
  {
    i + |sep| <= |s| && s[i..i + |sep|] == sep
  }

  /**
   * `s.split(sep)` for a non-empty separator: the pieces between the
   * occurrences of `sep` found scanning left to right without overlap.
   */
  function Split(s: string, sep: string): (parts: seq<string>)
    requires sep != []
    ensures |parts| >= 1
    decreases |s|
  {
    if |s| < |sep| then [s]
    else if s[..|sep|] == sep then [""] + Split(s[|sep|..], sep)
    else
      var rest := Split(s[1..], sep);
      [[s[0]] + rest[0]] + rest[1..]
  }

  /** `sep.join(parts)`. */
  function Join(parts: seq<string>, sep: string): string
    requires |parts| >= 1
  {
    if |parts| == 1 then parts[0] else parts[0] + sep + Join(parts[1..], sep)
  }

  /** Joining the pieces of a split with the same separator gives back the string. */
  lemma {:induction false} JoinSplit(s: string, sep: string)
    requires sep != []
    ensures Join(Split(s, sep), sep) == s
    decreases |s|
  {
    if |s| < |sep| {
    } else if s[..|sep|] == sep {
      var rest := Split(s[|sep|..], sep);
      JoinSplit(s[|sep|..], sep);
      var parts := [""] + rest;
      assert Split(s, sep) == parts;
      assert parts[1..] == rest;
      assert Join(parts, sep) == "" + sep + Join(rest, sep);
      assert s == sep + s[|sep|..];
    } else {
      var rest := Split(s[1..], sep);
      assert Split(s, sep) == [[s[0]] + rest[0]] + rest[1..];
      JoinSplit(s[1..], sep);
      JoinConsFirst([s[0]], rest, sep);
      assert s == [s[0]] + s[1..];
    }
  }

  lemma {:induction false} JoinConsFirst(x: string, parts: seq<string>, sep: string)
    requires |parts| >= 1
    ensures Join([x + parts[0]] + parts[1..], sep) == x + Join(parts, sep)
  {
    var ps := [x + parts[0]] + parts[1..];
    if |parts| > 1 {
      assert ps[1..] == parts[1..];
    }
  }

  /**
   * When no occurrence of the separator can start inside `x`, splitting
   * `x + y` glues `x` onto the first piece of `y` and keeps the others.
   */
  lemma {:induction false} SplitPrefix(x: string, y: string, sep: string)
    requires sep != [] && sep[0] !in x
    ensures Split(x + y, sep) == [x + Split(y, sep)[0]] + Split(y, sep)[1..]
    decreases |x|
  {
    if x == [] {
      assert x + y == y;
      var parts := Split(y, sep);
      assert x + parts[0] == parts[0];
      assert parts == [parts[0]] + parts[1..];
    } else {
      var s := x + y;
      assert s[0] == x[0] != sep[0];
      assert s[1..] == x[1..] + y;
      SplitPrefix(x[1..], y, sep);
      if |s| < |sep| {
        SplitShort(y, sep);
        assert Split(y, sep) == [y];
        assert [x[0]] + x[1..] == x;
      } else {
        assert s[..|sep|][0] == x[0];
        assert [x[0]] + (x[1..] + Split(y, sep)[0]) == x + Split(y, sep)[0];
      }
    }
  }

  lemma SplitShort(y: string, sep: string)
    requires sep != [] && |y| < |sep|
    ensures Split(y, sep) == [y]
  {
  }

  /** A string in which the separator's first character does not occur is one piece. */
  lemma {:induction false} SplitNone(x: string, sep: string)
    requires sep != [] && sep[0] !in x
    ensures Split(x, sep) == [x]
  {
    SplitPrefix(x, [], sep);
    assert x + [] == x;
  }

  /** Splitting `x + sep + y` where no occurrence starts in `x` cuts exactly after `x`. */
  lemma {:induction false} SplitAtFirst(x: string, sep: string, y: string)
    requires sep != [] && sep[0] !in x
    ensures Split(x + sep + y, sep) == [x] + Split(y, sep)
  {
    SplitPrefix(x, sep + y, sep);
    assert x + sep + y == x + (sep + y);
    assert (sep + y)[..|sep|] == sep && (sep + y)[|sep|..] == y;
    assert Split(sep + y, sep) == [""] + Split(y, sep);
    assert x + "" == x;
  }

  /** A string in which the separator never occurs is one piece. */
  lemma {:induction false} SplitNoOccurrence(s: string, sep: string)
    requires sep != []
    requires forall i: nat :: !OccursAt(s, sep, i)
    ensures Split(s, sep) == [s]
    decreases |s|
  {
    if |s| >= |sep| {
      assert !OccursAt(s, sep, 0);
      forall i: nat ensures !OccursAt(s[1..], sep, i) {
        if OccursAt(s[1..], sep, i) {
          assert s[1..][i..i + |sep|] == s[i + 1..i + 1 + |sep|];
          assert OccursAt(s, sep, i + 1);
        }
      }
      SplitNoOccurrence(s[1..], sep);
      assert [s[0]] + s[1..] == s;
    }
  }

  /** The first piece of a split on one character is the text before its first occurrence. */
  lemma {:induction false} SplitFirstPiece(s: string, c: char)
    ensures c !in Split(s, [c])[0]
    ensures Split(s, [c])[0] <= s
    decreases |s|
  {
    if s != [] {
      SplitFirstPiece(s[1..], c);
      if s[..1] != [c] {
        var r := Split(s[1..], [c])[0];
        assert s[0] != c;
        assert [s[0]] + r <= [s[0]] + s[1..];
        assert [s[0]] + s[1..] == s;
      }
    }
  }

  /** How often character `c` occurs in `s`. */
  function Count(s: string, c: char): nat
  {
    if s == [] then 0 else (if s[0] == c then 1 else 0) + Count(s[1..], c)
  }

  /** Splitting on one character gives one more piece than it has occurrences. */
  lemma {:induction false} SplitCount(s: string, c: char)
    ensures |Split(s, [c])| == Count(s, c) + 1
    decreases |s|
  {
    if s != [] {
      SplitCount(s[1..], c);
      if s[0] == c {
        assert s[..1] == [c];
      } else {
        assert s[..1] != [c];
      }
    }
  }

  function DigitValue(c: char): nat
    requires IsDigit(c)
  {
    (c as int - '0' as int) as nat
  }

  function DigitChar(d: nat): (c: char)
    requires d < 10
    ensures IsDigit(c) && DigitValue(c) == d
  {
    ('0' as int + d) as char
  }

  /** The number a run of decimal digits denotes, most significant first. */
  function DigitsValue(ds: string): nat
    requires AllDigits(ds)
  {
    if ds == [] then 0 else 10 * DigitsValue(ds[..|ds| - 1]) + DigitValue(ds[|ds| - 1])
  }

  /** `str(n)` for a natural number. */
  function NatToString(n: nat): (s: string)
    ensures s != [] && AllDigits(s)
  {
    if n < 10 then [DigitChar(n)] else NatToString(n / 10) + [DigitChar(n % 10)]
  }

  lemma {:induction false} DigitsOfNat(n: nat)
    ensures DigitsValue(NatToString(n)) == n
  {
    if n >= 10 {
      DigitsOfNat(n / 10);
      var s := NatToString(n);
      assert s[..|s| - 1] == NatToString(n / 10);
    }
  }

  /** Why `int(...)` rejects a text. */
  datatype IntError = NotAnInteger

  /**
   * `int(s)` on a string: optional surrounding white space, an optional
   * sign and at least one decimal digit; anything else raises ValueError.
   */
  function ParseInt(s: string): Result<int, IntError>
  {
    var t := Strip(s);
    if t != [] && (t[0] == '+' || t[0] == '-') then
      var ds := t[1..];
      if ds != [] && AllDigits(ds) then
        Ok(if t[0] == '-' then -(DigitsValue(ds) as int) else DigitsValue(ds))
      else Err(NotAnInteger)
    else if t != [] && AllDigits(t) then Ok(DigitsValue(t))
    else Err(NotAnInteger)
  }

  /** `int(str(n))` gives back `n`, also with white space around the digits. */
  lemma {:induction false} ParseIntOfNat(pre: string, n: nat, post: string)
    requires AllSpace(pre) && AllSpace(post)
    ensures ParseInt(pre + NatToString(n) + post) == Ok(n)
  {
    var ds := NatToString(n);
    assert !IsSpace(ds[0]) && !IsSpace(ds[|ds| - 1]);
    StripPadded(pre, ds, post);
    DigitsOfNat(n);
  }

  /** `int(ds)` on a non-empty run of digits is the number they denote. */
  lemma ParseIntOfDigitRun(ds: string)
    requires ds != [] && AllDigits(ds)
    ensures ParseInt(ds) == Ok(DigitsValue(ds))
  {
    assert IsDigit(ds[0]) && IsDigit(ds[|ds| - 1]);
    assert TrimStart(ds) == ds;
    assert TrimEnd(ds) == ds;
    assert ds[0] != '+' && ds[0] != '-';
  }

  /** `int(str(n))` gives back `n`. */
  lemma ParseIntOfDigits(n: nat)
    ensures ParseInt(NatToString(n)) == Ok(n)
  {
    ParseIntOfDigitRun(NatToString(n));
    DigitsOfNat(n);
  }

  /** A number below 100 written with two digits, as `%H`, `%M` and `%S` write it. */
  function Pad2(n: nat): (s: string)
    requires n < 100
    ensures |s| == 2 && AllDigits(s)
  {
    [DigitChar(n / 10), DigitChar(n % 10)]
  }

  lemma Pad2Value(n: nat)
    requires n < 100
    ensures DigitsValue(Pad2(n)) == n
  {
    var s := Pad2(n);
    assert s[..|s| - 1] == [DigitChar(n / 10)];
    assert [DigitChar(n / 10)][..0] == [];
    assert DigitsValue([DigitChar(n / 10)]) == n / 10;
  }
}
