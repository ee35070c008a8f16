/**
  Sequence and string helpers standing for the JavaScript string methods the
  source calls (`split`, `join`, `indexOf`, `lastIndexOf`, `toLowerCase`,
  `trim`, `reverse`). They are generic over the element type, so that they
  serve both Dafny strings and sequences of UTF-16 code units.
 */
module Text {

  /** Position of the first occurrence of `c` in `s` (`s.indexOf(c)` when found). */
  function IndexOf<T(==)>(s: seq<T>, c: T): (k: nat)
    requires c in s
    ensures k < |s| && s[k] == c && c !in s[..k]
  {
    if s[0] == c then 0
    else
      var k := IndexOf(s[1..], c) + 1;
      assert s[..k] == [s[0]] + s[1..][..k - 1];
      k
  }

  /** `s.lastIndexOf(c)`: the last position holding `c`, or -1. */
  function LastIndexOf<T(==)>(s: seq<T>, c: T): (k: int)
    ensures -1 <= k < |s|
    ensures k == -1 <==> c !in s
    ensures k >= 0 ==> s[k] == c && c !in s[k + 1..]
  {
    if s == [] then -1
    else if s[|s| - 1] == c then |s| - 1
    else
      var k := LastIndexOf(s[..|s| - 1], c);
      assert s == s[..|s| - 1] + [s[|s| - 1]];
      assert k >= 0 ==> s[k + 1..] == s[..|s| - 1][k + 1..] + [s[|s| - 1]];
      k
  }

  /** `s.split(c)` for a one-element separator: the maximal `c`-free pieces, in order. */
  function Split<T(==)>(s: seq<T>, c: T): (parts: seq<seq<T>>)
    ensures |parts| >= 1
    ensures forall i :: 0 <= i < |parts| ==> c !in parts[i]
    decreases |s|
  {
    if c !in s then [s]
    else
      var k := IndexOf(s, c);
      [s[..k]] + Split(s[k + 1..], c)
  }

  /** `parts.join(c)`; an empty array joins to the empty sequence. */
  function Join<T>(parts: seq<seq<T>>, c: T): seq<T>
  {
    if parts == [] then []
    else if |parts| == 1 then parts[0]
    else parts[0] + [c] + Join(parts[1..], c)
  }

  /** Number of occurrences of `c` in `s`. */
  function Count<T(==)>(s: seq<T>, c: T): nat
  {
    if s == [] then 0 else (if s[0] == c then 1 else 0) + Count(s[1..], c)
  }

  /** `Array.prototype.reverse`, as a value. */
  function Reverse<T>(s: seq<T>): (r: seq<T>)
    ensures |r| == |s|
  {
    seq(|s|, i requires 0 <= i < |s| => s[|s| - 1 - i])
  }

  lemma CountAppend<T>(a: seq<T>, b: seq<T>, c: T)
    ensures Count(a + b, c) == Count(a, c) + Count(b, c)
  {
    if a == [] {
      assert a + b == b;
    } else {
      assert (a + b)[1..] == a[1..] + b;
      CountAppend(a[1..], b, c);
    }
  }

  /** Joining the pieces of a split gives back the original sequence. */
  lemma {:induction false} JoinSplit<T>(s: seq<T>, c: T)
    ensures Join(Split(s, c), c) == s
    decreases |s|
  {
    if c in s {
      var k := IndexOf(s, c);
      var tail := Split(s[k + 1..], c);
      JoinSplit(s[k + 1..], c);
      var parts := [s[..k]] + tail;
      assert Split(s, c) == parts;
      assert |parts| > 1 && parts[0] == s[..k] && parts[1..] == tail;
      assert Join(parts, c) == parts[0] + [c] + Join(parts[1..], c);
      Rejoin(s, k);
    }
  }

  /** Splitting a join of separator-free pieces gives back the pieces. */
  lemma {:induction false} SplitJoin<T>(parts: seq<seq<T>>, c: T)
    requires |parts| >= 1
    requires forall i :: 0 <= i < |parts| ==> c !in parts[i]
    ensures Split(Join(parts, c), c) == parts
    decreases |parts|
  {
    if |parts| > 1 {
      var rest := Join(parts[1..], c);
      var s := Join(parts, c);
      assert s == parts[0] + [c] + rest;
      Around(parts[0], c, rest);
      IndexOfAt(s, c, |parts[0]|);
      SplitJoin(parts[1..], c);
      assert Split(s, c) == [parts[0]] + parts[1..];
    }
  }

  /** The three parts of `a + [c] + b` can be sliced back out. */
  lemma Around<T>(a: seq<T>, c: T, b: seq<T>)
    ensures var s := a + [c] + b; |s| == |a| + 1 + |b| && s[..|a|] == a && s[|a|] == c && s[|a| + 1..] == b
  {
  }

  /** A sequence is the part before position `k`, the element there, and the part after. */
  lemma Rejoin<T>(s: seq<T>, k: nat)
    requires k < |s|
    ensures s == s[..k] + [s[k]] + s[k + 1..]
  {
    assert s == s[..k] + s[k..];
    assert s[k..] == [s[k]] + s[k + 1..];
  }

  /** `indexOf` is the position of a `c` with none before it. */
  lemma IndexOfAt<T>(s: seq<T>, c: T, k: nat)
    requires k < |s| && s[k] == c && c !in s[..k]
    ensures IndexOf(s, c) == k
  {
    NotInPrefix(s, c, k);
    NotInPrefix(s, c, IndexOf(s, c));
  }

  /** No position before `k` holds an element missing from the first `k`. */
  lemma NotInPrefix<T>(s: seq<T>, c: T, k: nat)
    requires k <= |s| && c !in s[..k]
    ensures forall i :: 0 <= i < k ==> s[i] != c
  {
    forall i | 0 <= i < k
      ensures s[i] != c
    {
      assert s[..k][i] == s[i];
    }
  }

  /** Joining one more piece appends the separator and that piece. */
  lemma {:induction false} JoinAppend<T>(parts: seq<seq<T>>, x: seq<T>, c: T)
    requires parts != []
    ensures Join(parts + [x], c) == Join(parts, c) + [c] + x
    decreases |parts|
  {
    if |parts| > 1 {
      JoinAppend(parts[1..], x, c);
      assert (parts + [x])[1..] == parts[1..] + [x];
    }
  }

  /** A split has one more piece than there are separators. */
  lemma {:induction false} SplitCount<T>(s: seq<T>, c: T)
    ensures |Split(s, c)| == Count(s, c) + 1
    decreases |s|
  {
    if c !in s {
      CountAbsent(s, c);
    } else {
      var k := IndexOf(s, c);
      SplitCount(s[k + 1..], c);
      assert s == s[..k] + ([c] + s[k + 1..]);
      CountAppend(s[..k], [c] + s[k + 1..], c);
      CountAbsent(s[..k], c);
      assert ([c] + s[k + 1..])[1..] == s[k + 1..];
    }
  }

  lemma CountAbsent<T>(s: seq<T>, c: T)
    requires c !in s
    ensures Count(s, c) == 0
  {
    if s != [] {
      CountAbsent(s[1..], c);
    }
  }

  /** `lastIndexOf` is the position of a `c` with none after it. */
  lemma LastIndexOfIs<T>(s: seq<T>, c: T, k: nat)
    requires k < |s| && s[k] == c && c !in s[k + 1..]
    ensures LastIndexOf(s, c) == k
  {
  }

  /** The last `c` after a position holding `c` is found in the rest of the sequence. */
  lemma LastIndexOfAfter<T>(s: seq<T>, c: T, k: nat)
    requires k < |s| && s[k] == c && c in s[k + 1..]
    ensures LastIndexOf(s, c) == k + 1 + LastIndexOf(s[k + 1..], c)
  {
    var rest := s[k + 1..];
    var m := LastIndexOf(rest, c);
    assert s[k + 1 + m] == c;
    assert s[k + 1 + m + 1..] == rest[m + 1..];
    LastIndexOfIs(s, c, k + 1 + m);
  }

  /** The last piece of a split is what follows the last separator. */
  lemma SplitLast<T>(s: seq<T>, c: T)
    requires c in s
    ensures var parts := Split(s, c); parts[|parts| - 1] == s[LastIndexOf(s, c) + 1..]
  {
    SplitShape(s, c);
    var parts := Split(s, c);
    var p := parts[|parts| - 1];
    TailAfter(s, Join(parts[..|parts| - 1], c), c, p);
    LastPieceAfter(s, c, p);
  }

  /** A sequence holding the separator is the join of all pieces but the last, the separator, and the last piece. */
  lemma SplitShape<T>(s: seq<T>, c: T)
    requires c in s
    ensures var parts := Split(s, c);
      |parts| >= 2 && s == Join(parts[..|parts| - 1], c) + [c] + parts[|parts| - 1]
  {
    var parts := Split(s, c);
    SplitSeveral(s, c);
    var init, p := parts[..|parts| - 1], parts[|parts| - 1];
    assert parts == init + [p];
    JoinSplit(s, c);
    JoinAppend(init, p, c);
  }

  /** A sequence holding the separator splits into at least two pieces. */
  lemma SplitSeveral<T>(s: seq<T>, c: T)
    requires c in s
    ensures |Split(s, c)| >= 2
  {
  }

  /** The tail `p` of `a + [c] + p` ends it right after a `c`. */
  lemma TailAfter<T>(s: seq<T>, a: seq<T>, c: T, p: seq<T>)
    requires s == a + [c] + p
    ensures |p| < |s| && s[|s| - |p| - 1] == c && s[|s| - |p|..] == p
  {
  }

  /** A `c`-free tail right after a `c` starts after the last `c`. */
  lemma LastPieceAfter<T>(s: seq<T>, c: T, p: seq<T>)
    requires |p| < |s| && s[|s| - |p| - 1] == c && s[|s| - |p|..] == p && c !in p
    ensures s[LastIndexOf(s, c) + 1..] == p
  {
    LastIndexOfIs(s, c, |s| - |p| - 1);
  }

  /** Dropping `i` and then `j` elements drops `i + j`. */
  lemma DropDrop<T>(s: seq<T>, i: nat, j: nat)
    requires i + j <= |s|
    ensures s[i..][j..] == s[i + j..]
  {
  }

  /** Reversing twice gives back the original sequence. */
  lemma ReverseReverse<T>(s: seq<T>)
    ensures Reverse(Reverse(s)) == s
  {
    assert forall k :: 0 <= k < |s| ==> Reverse(Reverse(s))[k] == s[k];
  }

  lemma ReverseAppend<T>(a: seq<T>, b: seq<T>)
    ensures Reverse(a + b) == Reverse(b) + Reverse(a)
  {
    var l, r := Reverse(a + b), Reverse(b) + Reverse(a);
    assert |l| == |r|;
    forall k | 0 <= k < |l| ensures l[k] == r[k] {
      if k < |b| {
        assert l[k] == (a + b)[|a| + |b| - 1 - k] == b[|b| - 1 - k];
      } else {
        assert l[k] == (a + b)[|a| + |b| - 1 - k] == a[|a| + |b| - 1 - k];
      }
    }
  }

  /** A sequence of at most one element is its own reversal. */
  lemma ReverseShort<T>(s: seq<T>)
    requires |s| <= 1
    ensures Reverse(s) == s
  {
    if |s| == 1 {
      assert Reverse(s)[0] == s[0];
    }
  }

  /** Element `k` of the reversal is element `|s| - 1 - k` of the original. */
  lemma ReverseAt<T>(s: seq<T>, k: nat)
    requires k < |s|
    ensures Reverse(s)[k] == s[|s| - 1 - k]
  {
  }

  /** Element `i` of `s` sits at the mirrored position of its reversal, whatever is appended after it. */
  lemma ReverseThenAt<T>(s: seq<T>, x: T, i: nat)
    requires i < |s|
    ensures (Reverse(s) + [x])[|s| - 1 - i] == s[i]
  {
    var k := |s| - 1 - i;
    assert (Reverse(s) + [x])[k] == Reverse(s)[k];
  }

  // ASCII case mapping: the model's stand-in for `toLowerCase` / `toUpperCase`.

  function LowerChar(c: char): char
  {
    if 'A' <= c <= 'Z' then (c as int + 32) as char else c
  }

  function Lower(s: string): (r: string)
    ensures |r| == |s|
    ensures forall i :: 0 <= i < |s| ==> r[i] == LowerChar(s[i])
  {
    seq(|s|, i requires 0 <= i < |s| => LowerChar(s[i]))
  }

  /** Lowercasing twice is lowercasing once, and the result is a fixed point. */
  lemma LowerIdempotent(s: string)
    ensures Lower(Lower(s)) == Lower(s)
  {
  }

  lemma LowerAppend(a: string, b: string)
    ensures Lower(a + b) == Lower(a) + Lower(b)
  {
  }

  /** The ECMAScript WhiteSpace and LineTerminator characters `trim` removes. */
  predicate IsJsSpace(c: char)
  {
    var u := c as int;
    (9 <= u <= 13) || u == 0x20 || u == 0xA0 || u == 0x1680 || (0x2000 <= u <= 0x200A)
    || u == 0x2028 || u == 0x2029 || u == 0x202F || u == 0x205F || u == 0x3000 || u == 0xFEFF
  }

  function TrimStart(s: string): (r: string)
    ensures |r| <= |s|
    ensures r != [] ==> !IsJsSpace(r[0])
  {
    if s != [] && IsJsSpace(s[0]) then TrimStart(s[1..]) else s
  }

  function TrimEnd(s: string): (r: string)
    ensures |r| <= |s|
    ensures r != [] ==> !IsJsSpace(r[|r| - 1])
  {
    if s != [] && IsJsSpace(s[|s| - 1]) then TrimEnd(s[..|s| - 1]) else s
  }

  /** What `TrimStart` leaves is a suffix of its input, with only white space removed. */
  lemma {:induction false} TrimStartSuffix(s: string)
    ensures var r := TrimStart(s); r == s[|s| - |r|..] && forall i :: 0 <= i < |s| - |r| ==> IsJsSpace(s[i])
  {
    if s != [] && IsJsSpace(s[0]) {
      TrimStartSuffix(s[1..]);
    }
  }

  /** What `TrimEnd` leaves is a prefix of its input, with only white space removed. */
  lemma {:induction false} TrimEndPrefix(s: string)
    ensures var r := TrimEnd(s); r == s[..|r|] && forall i :: |r| <= i < |s| ==> IsJsSpace(s[i])
  {
    if s != [] && IsJsSpace(s[|s| - 1]) {
      TrimEndPrefix(s[..|s| - 1]);
    }
  }

  /** `s.trim()`: `s` without leading and trailing white space. */
  function Trim(s: string): string
  {
    TrimEnd(TrimStart(s))
  }

  /** `/^\d+$/.test(s)` */
  predicate IsDigits(s: string)
  {
    |s| > 0 && forall i :: 0 <= i < |s| ==> '0' <= s[i] <= '9'
  }

  /** The number a string of decimal digits denotes (`+s`). */
  function DecimalValue(s: string): (n: nat)
    requires forall i :: 0 <= i < |s| ==> '0' <= s[i] <= '9'
  {
    if s == [] then 0 else DecimalValue(s[..|s| - 1]) * 10 + (s[|s| - 1] as int - '0' as int)
  }

  /** The decimal text of a natural number (`String(n)`). */
  function DecimalText(n: nat): (s: string)
    ensures IsDigits(s)
  {
    if n < 10 then [('0' as int + n) as char]
    else DecimalText(n / 10) + [('0' as int + n % 10) as char]
  }

  /** `String(n)` and `+s` are inverse on natural numbers. */
  lemma {:induction false} DecimalRoundTrip(n: nat)
    ensures DecimalValue(DecimalText(n)) == n
  {
    var s := DecimalText(n);
    if n >= 10 {
      DecimalRoundTrip(n / 10);
      assert s[..|s| - 1] == DecimalText(n / 10);
    }
  }
}
