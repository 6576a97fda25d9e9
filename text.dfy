/** The handful of Python string operations the add-on relies on, over
    `seq<char>`: decimal formatting (`%i`, `%02d`), ASCII case mapping,
    slicing with a possibly negative bound, `find`, `split`, `replace` and
    `rstrip`.  Case mapping is ASCII only. */
module Text {

  function Digit(d: nat): (c: char)
    requires d < 10
    ensures '0' <= c <= '9'
  {
    (('0' as int) + d) as char
  }

  /** A lower-case hexadecimal digit. */
  function HexDigit(d: nat): (c: char)
    requires d < 16
    ensures '0' <= c <= '9' || 'a' <= c <= 'f'
  {
    if d < 10 then Digit(d) else (('a' as int) + (d - 10)) as char
  }

  /** Decimal digits of `n`, as `str(n)` writes them. */
  function NatToDec(n: nat): (s: string)
    ensures 1 <= |s|
    ensures forall k :: 0 <= k < |s| ==> '0' <= s[k] <= '9'
    decreases n
  {
    if n < 10 then [Digit(n)] else NatToDec(n / 10) + [Digit(n % 10)]
  }

  /** `'%i' % i` */
  function IntToDec(i: int): string
  {
    if i < 0 then "-" + NatToDec(-i) else NatToDec(i)
  }

  /** `'%02d' % n` for a non-negative `n`: at least two digits, zero padded. */
  function Pad2(n: nat): (s: string)
    ensures 2 <= |s|
    ensures forall k :: 0 <= k < |s| ==> '0' <= s[k] <= '9'
  {
    if n < 10 then "0" + [Digit(n)] else NatToDec(n)
  }

  lemma {:induction false} NatToDecLong(n: nat)
    requires 10 <= n
    ensures 2 <= |NatToDec(n)|
  {
  }

  lemma {:induction false} NatToDecNoLeadingZero(n: nat)
    requires 1 <= n
    ensures NatToDec(n)[0] != '0'
    decreases n
  {
    if 10 <= n {
      NatToDecNoLeadingZero(n / 10);
      assert NatToDec(n)[0] == NatToDec(n / 10)[0];
    }
  }

  /** Distinct numbers have distinct decimal representations. */
  lemma {:induction false} NatToDecInjective(a: nat, b: nat)
    requires NatToDec(a) == NatToDec(b)
    ensures a == b
    decreases a
  {
    var s := NatToDec(a);
    if a < 10 && b < 10 {
    } else if 10 <= a && 10 <= b {
      assert Digit(a % 10) == s[|s| - 1] == Digit(b % 10);
      assert NatToDec(a / 10) == s[..|s| - 1] == NatToDec(b / 10);
      NatToDecInjective(a / 10, b / 10);
    } else if a < 10 {
      NatToDecLong(b);
    } else {
      NatToDecLong(a);
    }
  }

  /** Distinct suffix numbers give distinct `%02d` suffixes. */
  lemma Pad2Injective(a: nat, b: nat)
    requires Pad2(a) == Pad2(b)
    ensures a == b
  {
    if a < 10 && b < 10 {
      assert Digit(a) == Pad2(a)[1] == Digit(b);
    } else if 10 <= a && 10 <= b {
      NatToDecInjective(a, b);
    } else if a < 10 {
      NatToDecNoLeadingZero(b);
    } else {
      NatToDecNoLeadingZero(a);
    }
  }

  /** `p + a` determines `a`. */
  lemma PrefixCancel(p: string, a: string, b: string)
    requires p + a == p + b
    ensures a == b
  {
    assert a == (p + a)[|p|..];
    assert b == (p + b)[|p|..];
  }

  function UpperChar(c: char): char
  {
    if 'a' <= c <= 'z' then ((c as int) - 32) as char else c
  }

  function LowerChar(c: char): char
  {
    if 'A' <= c <= 'Z' then ((c as int) + 32) as char else c
  }

  /** `s.upper()`, ASCII letters only */
  function Upper(s: string): (r: string)
    ensures |r| == |s|
    ensures forall k :: 0 <= k < |s| ==> r[k] == UpperChar(s[k])
  {
    seq(|s|, k requires 0 <= k < |s| => UpperChar(s[k]))
  }

  /** `s.lower()`, ASCII letters only */
  function Lower(s: string): (r: string)
    ensures |r| == |s|
    ensures forall k :: 0 <= k < |s| ==> r[k] == LowerChar(s[k])
  {
    seq(|s|, k requires 0 <= k < |s| => LowerChar(s[k]))
  }

  /** Python's `s[:n]`: a negative `n` counts from the end. */
  function SliceTo(s: string, n: int): (r: string)
    ensures 0 <= n ==> r == s[..if n < |s| then n else |s|]
    ensures n < 0 ==> r == s[..if |s| + n < 0 then 0 else |s| + n]
  {
    if 0 <= n then s[..if n < |s| then n else |s|]
    else s[..if |s| + n < 0 then 0 else |s| + n]
  }

  /** Python's `s[-n:]` for `n > 0`. */
  function SuffixOf(s: string, n: nat): (r: string)
    ensures |r| == if n < |s| then n else |s|
  {
    if n < |s| then s[|s| - n..] else s
  }

  /** `s.find(sub) != -1` */
  predicate Contains(s: string, sub: string)
    decreases |s|
  {
    |sub| <= |s| && (s[..|sub|] == sub || (s != [] && Contains(s[1..], sub)))
  }

  /** `s.split(sep)` for a one-character separator. */
  function Split(s: string, sep: char): (parts: seq<string>)
    ensures 1 <= |parts|
    ensures forall k :: 0 <= k < |parts| ==> sep !in parts[k]
    decreases |s|
  {
    if s == [] then [""]
    else
      var rest := Split(s[1..], sep);
      if s[0] == sep then [""] + rest else [[s[0]] + rest[0]] + rest[1..]
  }

  /** Splitting text that has no separator gives the text back. */
  lemma {:induction false} SplitNone(s: string, sep: char)
    requires sep !in s
    ensures Split(s, sep) == [s]
    decreases |s|
  {
    if s != [] {
      SplitNone(s[1..], sep);
      assert [s[0]] + s[1..] == s;
    }
  }

  /** Splitting at the first separator. */
  lemma {:induction false} SplitFirst(a: string, sep: char, b: string)
    requires sep !in a
    ensures Split(a + [sep] + b, sep) == [a] + Split(b, sep)
    decreases |a|
  {
    if a == [] {
      assert a + [sep] + b == [sep] + b;
      assert ([sep] + b)[1..] == b;
    } else {
      var s := a + [sep] + b;
      assert s[0] == a[0];
      assert s[1..] == a[1..] + [sep] + b;
      SplitFirst(a[1..], sep, b);
      assert [a[0]] + a[1..] == a;
    }
  }

  /** `s.replace(pat, rep)`: left to right, non-overlapping. */
  function Replace(s: string, pat: string, rep: string): string
    requires 0 < |pat|
    decreases |s|
  {
    if |s| < |pat| then s
    else if s[..|pat|] == pat then rep + Replace(s[|pat|..], pat, rep)
    else [s[0]] + Replace(s[1..], pat, rep)
  }

  /** The quote `repr` puts round a byte string: a single quote, unless
      the bytes hold a single quote and no double quote. */
  function ReprQuote(b: string): (q: char)
    ensures q == '\'' || q == '"'
    ensures q == '"' <==> '\'' in b && '"' !in b
  {
    if '\'' in b && '"' !in b then '"' else '\''
  }

  /** One byte as `repr` of a byte string writes it, a character standing
      for the byte of its code modulo 256: a backslash before the quote and
      before a backslash, `\t`, `\n` and `\r`, `\xhh` for the other
      control bytes and for those from 0x7f on, the byte itself otherwise. */
  function EscapeByte(c: char, q: char): (r: string)
    requires q == '\'' || q == '"'
    ensures 1 <= |r| <= 4
    ensures forall k :: 0 <= k < |r| ==> ' ' <= r[k] <= '~'
  {
    var b := (c as int) % 256;
    if b == q as int || b == '\\' as int then ['\\', b as char]
    else if b == 9 then "\\t"
    else if b == 10 then "\\n"
    else if b == 13 then "\\r"
    else if b < 0x20 || b >= 0x7f then "\\x" + [HexDigit(b / 16), HexDigit(b % 16)]
    else [b as char]
  }

  function EscapeBytes(b: string, q: char): (r: string)
    requires q == '\'' || q == '"'
    ensures |b| <= |r| <= 4 * |b|
    ensures forall k :: 0 <= k < |r| ==> ' ' <= r[k] <= '~'
    decreases |b|
  {
    if b == [] then [] else EscapeBytes(b[..|b| - 1], q) + EscapeByte(b[|b| - 1], q)
  }

  lemma EscapeBytesSnoc(b: string, c: char, q: char)
    requires q == '\'' || q == '"'
    ensures EscapeBytes(b + [c], q) == EscapeBytes(b, q) + EscapeByte(c, q)
  {
    assert (b + [c])[..|b|] == b;
  }

  /** Printable bytes other than the quote and the backslash are written
      as they are. */
  lemma {:induction false} EscapeBytesPlain(b: string, q: char)
    requires q == '\'' || q == '"'
    requires forall k :: 0 <= k < |b| ==> ' ' <= b[k] <= '~' && b[k] != q && b[k] != '\\'
    ensures EscapeBytes(b, q) == b
    decreases |b|
  {
    if b != [] {
      var init, c := b[..|b| - 1], b[|b| - 1];
      assert b == init + [c];
      EscapeBytesPlain(init, q);
      EscapeBytePlain(c, q);
      EscapeBytesSnoc(init, c, q);
    }
  }

  lemma EscapeBytePlain(c: char, q: char)
    requires q == '\'' || q == '"'
    requires ' ' <= c <= '~' && c != q && c != '\\'
    ensures EscapeByte(c, q) == [c]
  {
    assert (c as int) % 256 == c as int;
    assert ((c as int) % 256) as char == c;
  }

  /** The escape of a control byte that has a letter escape. */
  lemma EscapeByteControl(c: char, q: char)
    requires q == '\'' || q == '"'
    requires c == '\r' || c == '\n'
    ensures EscapeByte(c, q) == (if c == '\r' then "\\r" else "\\n")
  {
    assert (c as int) % 256 == c as int;
  }

  /** `str` of a `bytes` value, which is its `repr`: `b`, the quote, the
      escaped bytes and the quote again, all of it printable ASCII. */
  function BytesRepr(b: string): (r: string)
    ensures |b| + 3 <= |r|
    ensures r[0] == 'b' && r[1] == ReprQuote(b) && r[|r| - 1] == ReprQuote(b)
    ensures forall k :: 0 <= k < |r| ==> ' ' <= r[k] <= '~'
  {
    var q := ReprQuote(b);
    ['b', q] + EscapeBytes(b, q) + [q]
  }

  /** A replacement no longer than its pattern never lengthens the text. */
  lemma {:induction false} ReplaceShrinks(s: string, pat: string, rep: string)
    requires 0 < |pat| && |rep| <= |pat|
    ensures |Replace(s, pat, rep)| <= |s|
    decreases |s|
  {
    if |s| >= |pat| {
      if s[..|pat|] == pat {
        ReplaceShrinks(s[|pat|..], pat, rep);
      } else {
        ReplaceShrinks(s[1..], pat, rep);
      }
    }
  }

  /** Text without the pattern's first character is left alone. */
  lemma {:induction false} ReplaceAbsent(s: string, pat: string, rep: string)
    requires 0 < |pat| && pat[0] !in s
    ensures Replace(s, pat, rep) == s
    decreases |s|
  {
    if |s| >= |pat| {
      assert s[0] != pat[0];
      assert s[..|pat|] != pat;
      assert s[1..] + [] == s[1..];
      ReplaceAbsent(s[1..], pat, rep);
      assert [s[0]] + s[1..] == s;
    }
  }

  /** `s.rstrip(c)` for one character. */
  function RStrip(s: string, c: char): (r: string)
    ensures |r| <= |s| && r == s[..|r|]
    ensures r == [] || r[|r| - 1] != c
    ensures forall k :: |r| <= k < |s| ==> s[k] == c
    decreases |s|
  {
    if s != [] && s[|s| - 1] == c then RStrip(s[..|s| - 1], c) else s
  }
}
