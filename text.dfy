/** String operations of Python's `str` that the handlers and the RAG scripts
    rely on: `strip()`, ordering of strings, `str(int)` and `sep.join(...)`. */
module Text {

  /** Python's `str.isspace()` for one character: the ASCII controls
      TAB..CR and FS..US, the space, NEL, NO-BREAK SPACE and the Unicode
      space separators. */
  predicate IsSpace(c: char) {
    var n := c as int;
    || 9 <= n <= 13
    || 28 <= n <= 32
    || n == 0x85 || n == 0xA0 || n == 0x1680
    || 0x2000 <= n <= 0x200A
    || n == 0x2028 || n == 0x2029 || n == 0x202F || n == 0x205F || n == 0x3000
  }

  /** Every character is whitespace (this includes the empty string). */
  predicate Blank(s: string) {
    forall k :: 0 <= k < |s| ==> IsSpace(s[k])
  }

  /** Neither end of `s` is whitespace. */
  predicate Stripped(s: string) {
    s == [] || (!IsSpace(s[0]) && !IsSpace(s[|s| - 1]))
  }

  /** The number of whitespace characters `s` starts with. */
  function LeadCount(s: string): (n: nat)
    ensures n <= |s|
    ensures forall k :: 0 <= k < n ==> IsSpace(s[k])
    ensures n < |s| ==> !IsSpace(s[n])
    decreases |s|
  {
    if s != [] && IsSpace(s[0]) then 1 + LeadCount(s[1..]) else 0
  }

  /** The number of whitespace characters `s` ends with. */
  function TailCount(s: string): (n: nat)
    ensures n <= |s|
    ensures forall k :: |s| - n <= k < |s| ==> IsSpace(s[k])
    ensures n < |s| ==> !IsSpace(s[|s| - 1 - n])
    decreases |s|
  {
    if s != [] && IsSpace(s[|s| - 1]) then 1 + TailCount(s[..|s| - 1]) else 0
  }

  /** Drops leading whitespace: the result is a suffix of `s` whose removed
      head is blank and which does not itself start with whitespace. */
  function TrimLeft(s: string): (r: string)
    ensures |r| <= |s| && r == s[|s| - |r|..]
    ensures Blank(s[..|s| - |r|])
    ensures r == [] || !IsSpace(r[0])
  {
    s[LeadCount(s)..]
  }

  /** Drops trailing whitespace: the result is a prefix of `s` whose removed
      tail is blank and which does not itself end with whitespace. */
  function TrimRight(s: string): (r: string)
    ensures |r| <= |s| && r == s[..|r|]
    ensures Blank(s[|r|..])
    ensures r == [] || !IsSpace(r[|r| - 1])
  {
    s[..|s| - TailCount(s)]
  }

  /** The pieces `Strip` cuts `s` into: a blank head, the result, a blank
      tail. */
  lemma StripSplit(s: string)
    ensures var l := TrimLeft(s); var r := TrimRight(l); var i := |s| - |l|;
            && 0 <= i <= i + |r| <= |s| && s[i..i + |r|] == r
            && Blank(s[..i]) && Blank(s[i + |r|..])
  {
    var l := TrimLeft(s);
    var r := TrimRight(l);
    var i := |s| - |l|;
    assert s[i..i + |r|] == l[..|r|];
    assert s[i + |r|..] == l[|r|..];
  }

  /** `Strip` gives the empty string exactly for a blank input. */
  lemma StripEmpty(s: string)
    ensures TrimRight(TrimLeft(s)) == [] <==> Blank(s)
  {
    var l := TrimLeft(s);
    var i := |s| - |l|;
    if TrimRight(l) == [] {
      assert l[0..] == l;
      assert s[..i] == s;
    }
  }

  /** Python's `s.strip()`: `s` with its leading and trailing whitespace
      removed. The result is the middle of a split of `s` into a blank head,
      a core with no whitespace at either end and a blank tail. */
  function Strip(s: string): (r: string)
    ensures Stripped(r)
    ensures exists i :: 0 <= i <= i + |r| <= |s| && s[i..i + |r|] == r
                        && Blank(s[..i]) && Blank(s[i + |r|..])
    ensures r == [] <==> Blank(s)
  {
    StripSplit(s);
    StripEmpty(s);
    TrimBothStripped(s);
    TrimRight(TrimLeft(s))
  }

  lemma TrimBothStripped(s: string)
    ensures Stripped(TrimRight(TrimLeft(s)))
  {
    var l := TrimLeft(s);
    var r := TrimRight(l);
    assert r != [] ==> r[0] == l[0];
  }

  lemma {:induction false} LeadCountOfBlankHead(a: string, t: string)
    requires Blank(a)
    requires t == [] || !IsSpace(t[0])
    ensures LeadCount(a + t) == |a|
    decreases |a|
  {
    if a != [] {
      assert (a + t)[0] == a[0];
      assert (a + t)[1..] == a[1..] + t;
      LeadCountOfBlankHead(a[1..], t);
    } else {
      assert a + t == t;
    }
  }

  lemma {:induction false} TailCountOfBlankTail(t: string, b: string)
    requires Blank(b)
    requires t == [] || !IsSpace(t[|t| - 1])
    ensures TailCount(t + b) == |b|
    decreases |b|
  {
    if b != [] {
      assert (t + b)[|t + b| - 1] == b[|b| - 1];
      assert (t + b)[..|t + b| - 1] == t + b[..|b| - 1];
      TailCountOfBlankTail(t, b[..|b| - 1]);
    } else {
      assert t + b == t;
    }
  }

  lemma TrimLeftOfBlankHead(a: string, t: string)
    requires Blank(a)
    requires t == [] || !IsSpace(t[0])
    ensures TrimLeft(a + t) == t
  {
    LeadCountOfBlankHead(a, t);
    assert (a + t)[|a|..] == t;
  }

  lemma TrimRightOfBlankTail(t: string, b: string)
    requires Blank(b)
    requires t == [] || !IsSpace(t[|t| - 1])
    ensures TrimRight(t + b) == t
  {
    TailCountOfBlankTail(t, b);
    assert (t + b)[..|t|] == t;
  }

  /** The split in `Strip`'s contract is unique: whatever blank head and tail
      surround a core with no outer whitespace, stripping yields that core. */
  lemma StripUnique(a: string, m: string, b: string)
    requires Blank(a) && Blank(b) && Stripped(m)
    ensures Strip(a + m + b) == m
  {
    if m == [] {
      assert a + m + b == a + b;
      assert Blank(a + b) by {
        forall k | 0 <= k < |a + b| ensures IsSpace((a + b)[k]) {
          if k < |a| { assert (a + b)[k] == a[k]; } else { assert (a + b)[k] == b[k - |a|]; }
        }
      }
    } else {
      assert a + m + b == a + (m + b);
      TrimLeftOfBlankHead(a, m + b);
      TrimRightOfBlankTail(m, b);
    }
  }

  /** Stripping twice is stripping once. */
  lemma StripIdempotent(s: string)
    ensures Strip(Strip(s)) == Strip(s)
  {
    StripOfStripped(Strip(s));
  }

  /** A string without surrounding whitespace is its own strip. */
  lemma StripOfStripped(m: string)
    requires Stripped(m)
    ensures Strip(m) == m
  {
    assert [] + m + [] == m;
    StripUnique([], m, []);
  }

  /** Python's `<=` on `str`: lexicographic order on code points, where a
      proper prefix comes first. */
  predicate StrLe(a: string, b: string)
    decreases |a|
  {
    if a == [] then true
    else if b == [] then false
    else if a[0] != b[0] then a[0] < b[0]
    else StrLe(a[1..], b[1..])
  }

  lemma {:induction false} StrLeTotal(a: string, b: string)
    ensures StrLe(a, b) || StrLe(b, a)
    decreases |a|
  {
    if a != [] && b != [] && a[0] == b[0] {
      StrLeTotal(a[1..], b[1..]);
    }
  }

  lemma {:induction false} StrLeTransitive(a: string, b: string, c: string)
    requires StrLe(a, b) && StrLe(b, c)
    ensures StrLe(a, c)
    decreases |a|
  {
    if a != [] && b != [] && c != [] && a[0] == b[0] && b[0] == c[0] {
      StrLeTransitive(a[1..], b[1..], c[1..]);
    }
  }

  lemma {:induction false} StrLeAntisymmetric(a: string, b: string)
    requires StrLe(a, b) && StrLe(b, a)
    ensures a == b
    decreases |a|
  {
    if a != [] && b != [] {
      StrLeAntisymmetric(a[1..], b[1..]);
      assert a == [a[0]] + a[1..] && b == [b[0]] + b[1..];
    }
  }

  predicate IsDigit(c: char) {
    '0' <= c <= '9'
  }

  function DigitChar(d: nat): (c: char)
    requires d < 10
    ensures IsDigit(c) && (c as int) - ('0' as int) == d
  {
    ('0' as int + d) as char
  }

  /** Python's `str(n)` (and `f"{n}"`) for a natural number: its decimal
      digits, most significant first, without leading zeros. */
  function DecimalText(n: nat): (r: string)
    ensures r != [] && forall k :: 0 <= k < |r| ==> IsDigit(r[k])
    ensures r[0] == '0' ==> n == 0 && r == "0"
  {
    if n < 10 then [DigitChar(n)] else DecimalText(n / 10) + [DigitChar(n % 10)]
  }

  /** The value of a string of decimal digits (the reading side of
      `DecimalText`). */
  function DecimalValue(s: string): nat
    requires forall k :: 0 <= k < |s| ==> IsDigit(s[k])
  {
    if s == [] then 0
    else
      assert IsDigit(s[|s| - 1]);
      DecimalValue(s[..|s| - 1]) * 10 + ((s[|s| - 1] as int) - ('0' as int))
  }

  /** Reading back a rendered number gives the number. */
  lemma {:induction false} DecimalRoundTrip(n: nat)
    ensures DecimalValue(DecimalText(n)) == n
  {
    var r := DecimalText(n);
    if n >= 10 {
      DecimalRoundTrip(n / 10);
      assert r[..|r| - 1] == DecimalText(n / 10);
    }
  }

  /** Python's `str(n)` for any integer: a minus sign, for a negative
      number, before the decimal digits of its magnitude. */
  function IntText(n: int): string {
    (if n < 0 then "-" else "") + DecimalText(if n < 0 then -n else n)
  }

  /** A rendered integer starts with a minus sign exactly when it is
      negative, and is made of digits otherwise. */
  lemma IntTextShape(n: int)
    ensures IntText(n) != []
    ensures IntText(n)[0] == '-' <==> n < 0
    ensures forall k :: 1 <= k < |IntText(n)| ==> IsDigit(IntText(n)[k])
    ensures n >= 0 ==> IsDigit(IntText(n)[0])
  {
  }

  /** The value of a rendered integer (the reading side of `IntText`). */
  function IntValue(s: string): int
    requires s != [] && (s[0] == '-' || IsDigit(s[0]))
    requires forall k :: 1 <= k < |s| ==> IsDigit(s[k])
  {
    if s[0] == '-' then -(DecimalValue(s[1..]) as int) else DecimalValue(s)
  }

  /** Reading back a rendered integer gives the integer. */
  lemma IntRoundTrip(n: int)
    ensures var r := IntText(n);
            && r != [] && (r[0] == '-' || IsDigit(r[0])) && (forall k :: 1 <= k < |r| ==> IsDigit(r[k]))
            && IntValue(r) == n
  {
    IntTextShape(n);
    if n >= 0 {
      DecimalRoundTrip(n);
      assert IntText(n) == DecimalText(n);
    } else {
      DecimalRoundTrip(-n);
      assert IntText(n) == "-" + DecimalText(-n);
      assert IntText(n)[1..] == DecimalText(-n);
    }
  }

  /** Python's `sep.join(parts)`. */
  function Join(parts: seq<string>, sep: string): (r: string)
  {
    if parts == [] then ""
    else if |parts| == 1 then parts[0]
    else Join(parts[..|parts| - 1], sep) + sep + parts[|parts| - 1]
  }

  /** Joining a list with one more part adds the separator and that part. */
  lemma JoinSnoc(parts: seq<string>, sep: string, last: string)
    requires parts != []
    ensures Join(parts + [last], sep) == Join(parts, sep) + sep + last
  {
    assert (parts + [last])[..|parts|] == parts;
  }

  /** `Join` of the parts always begins with the first part. */
  lemma {:induction false} JoinStartsWithFirst(parts: seq<string>, sep: string)
    requires parts != []
    ensures |parts[0]| <= |Join(parts, sep)|
    ensures Join(parts, sep)[..|parts[0]|] == parts[0]
  {
    if |parts| > 1 {
      var init := parts[..|parts| - 1];
      JoinStartsWithFirst(init, sep);
      assert init[0] == parts[0];
      var j := Join(init, sep);
      assert Join(parts, sep) == j + sep + parts[|parts| - 1];
      assert (j + sep + parts[|parts| - 1])[..|parts[0]|] == j[..|parts[0]|];
    }
  }
}
