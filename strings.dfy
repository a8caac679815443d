/** The .NET string operations the endpoint builder and the client rely on
    (`TrimStart(char)`, `TrimEnd(char)`, `string.IsNullOrWhiteSpace`); `Join`,
    the reference definition of a query string that the builder's loop is
    proved against, with its inverse `Split`; `IndexOf`; and the facts the
    builder's proof needs. */
module Strings {

  /** `count` copies of `c`. */
  function Repeat(c: char, count: nat): (r: string)
    ensures |r| == count
    ensures forall i :: 0 <= i < count ==> r[i] == c
  {
    seq(count, _ => c)
  }

  /** How many copies of `c` open `s`: all of them, not only the first. */
  function LeadingCount(s: string, c: char): (n: nat)
    ensures n <= |s|
    ensures forall i :: 0 <= i < n ==> s[i] == c
    ensures n == |s| || s[n] != c
  {
    if |s| > 0 && s[0] == c then 1 + LeadingCount(s[1..], c) else 0
  }

  /** How many copies of `c` close `s`. */
  function TrailingCount(s: string, c: char): (n: nat)
    ensures n <= |s|
    ensures forall i :: |s| - n <= i < |s| ==> s[i] == c
    ensures n == |s| || s[|s| - n - 1] != c
  {
    if |s| > 0 && s[|s| - 1] == c then 1 + TrailingCount(s[..|s| - 1], c) else 0
  }

  /** `s.TrimStart(c)`: removes every leading `c`. */
  function TrimStart(s: string, c: char): string
  {
    s[LeadingCount(s, c)..]
  }

  /** `s.TrimEnd(c)`: removes every trailing `c`. */
  function TrimEnd(s: string, c: char): string
  {
    s[..|s| - TrailingCount(s, c)]
  }

  /** `TrimStart` is characterised by what it keeps: the only suffix of `s`
      that drops nothing but `c`s and does not itself start with `c`. */
  lemma TrimStartUnique(s: string, c: char, r: string)
    requires |r| <= |s| && r == s[|s| - |r|..]
    requires forall i :: 0 <= i < |s| - |r| ==> s[i] == c
    requires r == [] || r[0] != c
    ensures r == TrimStart(s, c)
  {
  }

  /** Trimming never brings in a character the string did not hold. */
  lemma TrimKeepsAbsent(s: string, c: char, ch: char)
    requires ch !in s
    ensures ch !in TrimStart(s, c) && ch !in TrimEnd(s, c)
  {
    var t, e := TrimStart(s, c), TrimEnd(s, c);
    forall j | 0 <= j < |t| ensures t[j] != ch {
      assert t[j] == s[|s| - |t| + j];
    }
    forall j | 0 <= j < |e| ensures e[j] != ch {
      assert e[j] == s[j];
    }
  }

  /** Leading copies of `c` make no difference to `TrimStart`. */
  lemma {:induction false} TrimStartRepeat(c: char, count: nat, s: string)
    ensures TrimStart(Repeat(c, count) + s, c) == TrimStart(s, c)
  {
    if count > 0 {
      var t := Repeat(c, count) + s;
      assert t[0] == c;
      assert t[1..] == Repeat(c, count - 1) + s;
      assert TrimStart(t, c) == TrimStart(t[1..], c);
      TrimStartRepeat(c, count - 1, s);
    } else {
      assert Repeat(c, count) + s == s;
    }
  }

  /** The parts in order with one `sep` between each neighbouring pair: the
      reference definition of a query string, against which the builder's
      append-then-remove loop is proved. */
  function Join(parts: seq<string>, sep: char): string
  {
    if |parts| == 0 then []
    else if |parts| == 1 then parts[0]
    else parts[0] + [sep] + Join(parts[1..], sep)
  }

  /** Every part followed by `sep`: what appending `$"{part}{sep}"` for each
      part in order leaves in a buffer. */
  function Terminated(parts: seq<string>, sep: char): string
  {
    if |parts| == 0 then [] else parts[0] + [sep] + Terminated(parts[1..], sep)
  }

  /** Appending one more part to the buffer extends `Terminated` by that part. */
  lemma {:induction false} TerminatedSnoc(parts: seq<string>, p: string, sep: char)
    ensures Terminated(parts + [p], sep) == Terminated(parts, sep) + p + [sep]
  {
    if |parts| == 0 {
      assert parts + [p] == [p];
    } else {
      assert (parts + [p])[1..] == parts[1..] + [p];
      TerminatedSnoc(parts[1..], p, sep);
    }
  }

  /** The terminated buffer is the joined string plus exactly one final
      separator, so removing its last character leaves the join. */
  lemma {:induction false} TerminatedJoin(parts: seq<string>, sep: char)
    requires |parts| > 0
    ensures Terminated(parts, sep) == Join(parts, sep) + [sep]
  {
    if |parts| > 1 {
      TerminatedJoin(parts[1..], sep);
    } else {
      assert parts[1..] == [];
    }
  }

  /** One more loop iteration over a buffer that starts with `prefix`: the
      first `k + 1` parts terminated are the first `k` terminated, then part
      `k` and `sep`. The `prefix` (the builder's `?`) is part of the statement
      so that it has exactly the shape of the buffer after an append, which
      keeps the builder's loop proof small. */
  lemma TerminatedPrefix(prefix: string, parts: seq<string>, k: nat, sep: char)
    requires k < |parts|
    ensures prefix + Terminated(parts[..k + 1], sep) == prefix + Terminated(parts[..k], sep) + parts[k] + [sep]
  {
    assert parts[..k + 1] == parts[..k] + [parts[k]];
    TerminatedSnoc(parts[..k], parts[k], sep);
  }

  /** The inverse of `Join`: the pieces between occurrences of `c`; never empty. */
  function Split(s: string, c: char): (r: seq<string>)
    ensures |r| >= 1
    ensures forall i :: 0 <= i < |r| ==> c !in r[i]
  {
    if |s| == 0 then [[]]
    else
      var rest := Split(s[1..], c);
      if s[0] == c then [[]] + rest else [[s[0]] + rest[0]] + rest[1..]
  }

  /** A string without the separator splits into itself. */
  lemma {:induction false} SplitNoSeparator(s: string, c: char)
    requires c !in s
    ensures Split(s, c) == [s]
  {
    if |s| > 0 {
      assert c !in s[1..];
      SplitNoSeparator(s[1..], c);
      assert [s[0]] + s[1..] == s;
    }
  }

  /** Splitting at the first separator peels off the piece before it. */
  lemma {:induction false} SplitAtSeparator(a: string, b: string, c: char)
    requires c !in a
    ensures Split(a + [c] + b, c) == [a] + Split(b, c)
  {
    var s := a + [c] + b;
    if |a| == 0 {
      assert s[0] == c && s[1..] == b;
    } else {
      assert s[0] == a[0];
      assert s[1..] == a[1..] + [c] + b;
      assert c !in a[1..];
      SplitAtSeparator(a[1..], b, c);
      assert [a[0]] + a[1..] == a;
    }
  }

  /** Join then Split gives the parts back when no part holds the separator. */
  lemma {:induction false} SplitJoin(parts: seq<string>, c: char)
    requires |parts| > 0
    requires forall i :: 0 <= i < |parts| ==> c !in parts[i]
    ensures Split(Join(parts, c), c) == parts
  {
    if |parts| == 1 {
      SplitNoSeparator(parts[0], c);
    } else {
      SplitJoin(parts[1..], c);
      SplitAtSeparator(parts[0], Join(parts[1..], c), c);
      assert [parts[0]] + parts[1..] == parts;
    }
  }

  /** Split then Join gives the string back, whatever it holds. */
  lemma {:induction false} JoinSplit(s: string, c: char)
    ensures Join(Split(s, c), c) == s
  {
    if |s| > 0 {
      var rest := Split(s[1..], c);
      JoinSplit(s[1..], c);
      if s[0] == c {
        assert ([[]] + rest)[1..] == rest;
      } else {
        var r := [[s[0]] + rest[0]] + rest[1..];
        assert r[1..] == rest[1..];
        if |rest| > 1 {
          assert Join(rest, c) == rest[0] + [c] + Join(rest[1..], c);
        }
        assert [s[0]] + s[1..] == s;
      }
    }
  }

  /** Position of the first `c` in `s`, or `|s|` when there is none. */
  function IndexOf(s: string, c: char): (i: nat)
    ensures i <= |s|
    ensures i < |s| ==> s[i] == c
    ensures forall j :: 0 <= j < i ==> s[j] != c
  {
    if |s| == 0 then 0 else if s[0] == c then 0 else 1 + IndexOf(s[1..], c)
  }

  /** The three facts `IndexOf` ensures pin down its result. */
  lemma IndexOfAt(s: string, c: char, i: nat)
    requires i <= |s|
    requires i < |s| ==> s[i] == c
    requires forall j :: 0 <= j < i ==> s[j] != c
    ensures IndexOf(s, c) == i
  {
  }

  /** `char.IsWhiteSpace`: the .NET table of white-space characters (the
      controls U+0009 to U+000D and U+0085, and the Unicode space, line and
      paragraph separators). */
  predicate IsWhiteSpace(c: char)
  {
    var n := c as int;
    (0x09 <= n <= 0x0D) || n == 0x20 || n == 0x85 || n == 0xA0 || n == 0x1680
    || (0x2000 <= n <= 0x200A) || n == 0x2028 || n == 0x2029 || n == 0x202F
    || n == 0x205F || n == 0x3000
  }

  /** The code points of the .NET white-space table, listed one by one. */
  const WhiteSpaceCodes: set<int> := {
    0x09, 0x0A, 0x0B, 0x0C, 0x0D, 0x20, 0x85, 0xA0, 0x1680,
    0x2000, 0x2001, 0x2002, 0x2003, 0x2004, 0x2005, 0x2006, 0x2007, 0x2008, 0x2009, 0x200A,
    0x2028, 0x2029, 0x202F, 0x205F, 0x3000 }

  /** `IsWhiteSpace` is exactly the listed table. */
  lemma WhiteSpaceTable(c: char)
    ensures IsWhiteSpace(c) <==> (c as int) in WhiteSpaceCodes
  {
  }

  /** `string.IsNullOrWhiteSpace` on a non-null string: empty or all white space. */
  predicate IsBlank(s: string)
  {
    forall i :: 0 <= i < |s| ==> IsWhiteSpace(s[i])
  }
}
