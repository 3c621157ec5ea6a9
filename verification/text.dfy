/** The ECMAScript string operations the documentation tool relies on:
    the `\s` and `\w` character classes, `toLowerCase` (restricted to ASCII),
    `includes`, `trim` and `split`. */
module Text {

  /** ECMAScript `\s`, which is also the set `String.prototype.trim` removes:
      the WhiteSpace and LineTerminator code points. */
  predicate IsSpace(c: char) {
    var n := c as int;
    (9 <= n <= 13) || n == 0x20 || n == 0xA0 || n == 0x1680
    || (0x2000 <= n <= 0x200A) || n == 0x2028 || n == 0x2029
    || n == 0x202F || n == 0x205F || n == 0x3000 || n == 0xFEFF
  }

  /** ECMAScript `\w` without the unicode flag; `\b` holds between a word
      character and a non-word one. */
  predicate IsWordChar(c: char) {
    ('a' <= c <= 'z') || ('A' <= c <= 'Z') || ('0' <= c <= '9') || c == '_'
  }

  function LowerChar(c: char): char {
    if 'A' <= c <= 'Z' then (c as int + 32) as char else c
  }

  function UpperChar(c: char): char {
    if 'a' <= c <= 'z' then (c as int - 32) as char else c
  }

  /** `toLowerCase`, folding ASCII letters only: each character is folded
      on its own, and no capital letter is left. */
  function Lower(s: string): (r: string)
    ensures |r| == |s|
    ensures forall i :: 0 <= i < |s| ==> r[i] == LowerChar(s[i])
    ensures forall i :: 0 <= i < |r| ==> !('A' <= r[i] <= 'Z')
  {
    seq(|s|, i requires 0 <= i < |s| => LowerChar(s[i]))
  }

  /** Lower-casing twice is lower-casing once. */
  lemma LowerIdempotent(s: string)
    ensures Lower(Lower(s)) == Lower(s)
  {
  }

  /** `toUpperCase`, folding ASCII letters only. */
  function Upper(s: string): (r: string)
    ensures |r| == |s|
    ensures forall i :: 0 <= i < |s| ==> r[i] == UpperChar(s[i])
  {
    seq(|s|, i requires 0 <= i < |s| => UpperChar(s[i]))
  }

  /** Folding is insensitive to the case the text was written in. */
  lemma LowerOfUpper(s: string)
    ensures Lower(Upper(s)) == Lower(s)
  {
    forall i | 0 <= i < |s|
      ensures Lower(Upper(s))[i] == Lower(s)[i]
    {
      var c := s[i];
      if 'a' <= c <= 'z' {
        assert UpperChar(c) as int == c as int - 32;
      } else if 'A' <= c <= 'Z' {
        assert LowerChar(c) as int == c as int + 32;
      }
    }
  }

  /** A non-empty sequence is its front followed by its last element. */
  lemma FrontLast<T>(s: seq<T>)
    requires s != []
    ensures s[..|s| - 1] + [s[|s| - 1]] == s
  {
  }

  /** A non-empty sequence is its first element followed by the rest. */
  lemma FrontTail<T>(s: seq<T>)
    requires s != []
    ensures [s[0]] + s[1..] == s
  {
  }

  /** What a prefix lacks, its first element and the tail's prefix lack. */
  lemma NotInPrefix<T>(x: T, rest: seq<T>, c: T, m: nat)
    requires 0 < m <= 1 + |rest|
    requires c !in ([x] + rest)[..m]
    ensures x != c && c !in rest[..m - 1]
  {
    assert ([x] + rest)[..m] == [x] + rest[..m - 1];
  }

  /** Dropping the first element and then `m - 1` more drops `m`. */
  lemma DropDrop<T>(s: seq<T>, m: nat)
    requires 0 < m <= |s|
    ensures s[1..][m - 1..] == s[m..]
  {
  }

  /** Dropping from a concatenation no further than its first part drops
      from that part. */
  lemma DropConcat<T>(a: seq<T>, b: seq<T>, i: nat)
    requires i <= |a|
    ensures (a + b)[i..] == a[i..] + b
  {
  }

  /** Dropping `m` elements and then `i` more drops `m + i`. */
  lemma DropDropN<T>(s: seq<T>, m: nat, i: nat)
    requires m + i <= |s|
    ensures s[m..][i..] == s[m + i..]
  {
  }

  /** Past its first element, a sequence built by prepending one element
      is the sequence it was built from. */
  lemma ConsDrop<T>(x: T, rest: seq<T>, i: nat)
    requires 0 < i <= 1 + |rest|
    ensures ([x] + rest)[i..] == rest[i - 1..]
  {
  }

  /** `needle` occurs in `hay` starting at index `i`. */
  predicate OccursAt(hay: string, needle: string, i: int) {
    0 <= i && i + |needle| <= |hay| && hay[i..i + |needle|] == needle
  }

  /** `String.prototype.includes`. */
  predicate Contains(hay: string, needle: string) {
    exists i | 0 <= i <= |hay| - |needle| :: OccursAt(hay, needle, i)
  }

  /** Every string includes the empty string. */
  lemma ContainsEmpty(hay: string)
    ensures Contains(hay, [])
  {
    assert OccursAt(hay, [], 0);
  }

  /** A string includes each piece it is concatenated from. */
  lemma ContainsInfix(a: string, b: string, c: string)
    ensures Contains(a + b + c, b)
  {
    assert (a + b + c)[|a|..|a| + |b|] == b;
    assert OccursAt(a + b + c, b, |a|);
  }

  /** Concatenation regrouped so that the last three parts form one. */
  lemma RegroupTail<T>(a: seq<T>, b: seq<T>, c: seq<T>, d: seq<T>)
    ensures a + b + c + d == a + (b + c + d)
  {
  }

  /** Concatenation regrouped around its first part. */
  lemma Regroup<T>(a: seq<T>, b: seq<T>, c: seq<T>)
    ensures a + (b + c) == a + b + c
  {
  }

  /** Inclusion is transitive. */
  lemma ContainsTransitive(a: string, b: string, c: string)
    requires Contains(a, b) && Contains(b, c)
    ensures Contains(a, c)
  {
    var i :| 0 <= i <= |a| - |b| && OccursAt(a, b, i);
    var j :| 0 <= j <= |b| - |c| && OccursAt(b, c, j);
    assert forall k :: 0 <= k < |c| ==> a[i + j + k] == b[j + k] == c[k];
    assert a[i + j..i + j + |c|] == c;
    assert OccursAt(a, c, i + j);
  }

  /** Number of whitespace characters `s` starts with. */
  function LeadingSpaces(s: string): (n: nat)
    ensures n <= |s|
    ensures forall i :: 0 <= i < n ==> IsSpace(s[i])
    ensures n < |s| ==> !IsSpace(s[n])
    decreases |s|
  {
    if s != [] && IsSpace(s[0]) then 1 + LeadingSpaces(s[1..]) else 0
  }

  /** Number of whitespace characters `s` ends with. */
  function TrailingSpaces(s: string): (n: nat)
    ensures n <= |s|
    ensures forall i :: |s| - n <= i < |s| ==> IsSpace(s[i])
    ensures n < |s| ==> !IsSpace(s[|s| - 1 - n])
    decreases |s|
  {
    if s != [] && IsSpace(s[|s| - 1]) then 1 + TrailingSpaces(s[..|s| - 1]) else 0
  }

  /** `String.prototype.trim`: the middle of `s` once the leading and the
      trailing whitespace are cut off. */
  function Trim(s: string): (r: string)
    ensures |r| <= |s|
    ensures r != [] ==> !IsSpace(r[0]) && !IsSpace(r[|r| - 1])
  {
    var t := s[LeadingSpaces(s)..];
    t[..|t| - TrailingSpaces(t)]
  }

  /** The trim of `s` is the slice of `s` after its leading whitespace, and
      everything outside that slice is whitespace. */
  lemma TrimIsMiddleSlice(s: string)
    ensures LeadingSpaces(s) + |Trim(s)| <= |s|
    ensures Trim(s) == s[LeadingSpaces(s)..LeadingSpaces(s) + |Trim(s)|]
    ensures forall i :: 0 <= i < |s| && (i < LeadingSpaces(s) || LeadingSpaces(s) + |Trim(s)| <= i) ==> IsSpace(s[i])
  {
    var a := LeadingSpaces(s);
    var t := s[a..];
    var e := TrailingSpaces(t);
    var r := t[..|t| - e];
    assert r == s[a..a + |r|];
    forall i | 0 <= i < |s| && (i < a || a + |r| <= i)
      ensures IsSpace(s[i])
    {
      if i >= a {
        assert s[i] == t[i - a];
        assert |t| - e <= i - a;
      }
    }
  }

  /** A string with no whitespace at either end is its own trim. */
  lemma TrimOfTrimmed(s: string)
    requires s == [] || (!IsSpace(s[0]) && !IsSpace(s[|s| - 1]))
    ensures Trim(s) == s
  {
    if s != [] {
      TrimIsMiddleSlice(s);
      assert LeadingSpaces(s) == 0;
      var r := Trim(s);
      assert !IsSpace(s[|s| - 1]);
      assert |r| == |s|;
    }
  }

  /** Trimming twice is trimming once. */
  lemma TrimIdempotent(s: string)
    ensures Trim(Trim(s)) == Trim(s)
  {
    TrimOfTrimmed(Trim(s));
  }

  /** Trimming text that a line break opens and closes gives back the
      text between them when that text has no whitespace at either end. */
  lemma TrimBetweenBreaks(m: string)
    requires m != [] && !IsSpace(m[0]) && !IsSpace(m[|m| - 1])
    ensures Trim("\n" + m + "\n") == m
  {
    var s := "\n" + m + "\n";
    assert IsSpace(s[0]) && s[1] == m[0];
    assert LeadingSpaces(s) == 1;
    var t := s[1..];
    assert t == m + "\n";
    assert IsSpace(t[|t| - 1]) && t[|t| - 2] == m[|m| - 1];
    assert TrailingSpaces(t) == 1;
    assert t[..|t| - 1] == m;
  }

  /** `String.prototype.split` with a one-character separator: the pieces
      between separators, in order; there is always at least one piece. */
  function Split(s: string, sep: char): (lines: seq<string>)
    ensures |lines| >= 1
    ensures lines[0] <= s
    ensures |lines[0]| < |s| ==> s[|lines[0]|] == sep
    ensures forall k :: 0 <= k < |lines| ==> sep !in lines[k]
    decreases |s|
  {
    if s == [] then [[]]
    else
      var rest := Split(s[1..], sep);
      if s[0] == sep then [[]] + rest
      else [[s[0]] + rest[0]] + rest[1..]
  }

  /** `Array.prototype.join` with a one-character separator. */
  function Join(lines: seq<string>, sep: char): string
    decreases |lines|
  {
    if lines == [] then []
    else if |lines| == 1 then lines[0]
    else lines[0] + [sep] + Join(lines[1..], sep)
  }

  /** Joining the pieces of a split gives back the original text. */
  lemma {:induction false} JoinSplit(s: string, sep: char)
    ensures Join(Split(s, sep), sep) == s
    decreases |s|
  {
    if s != [] {
      var c, t := s[0], s[1..];
      var rest := Split(t, sep);
      JoinSplit(t, sep);
      FrontTail(s);
      SplitCons(c, t, sep);
      var lines := Split(s, sep);
      if c == sep {
        assert lines == [[]] + rest;
        JoinEmptyHead(rest, sep);
      } else {
        assert lines == [[c] + rest[0]] + rest[1..];
        JoinHead(lines, sep);
        assert lines[0][1..] == rest[0];
        FrontTail(rest);
        assert [lines[0][1..]] + lines[1..] == rest;
      }
    }
  }

  /** Joining after an empty first piece starts with the separator. */
  lemma JoinEmptyHead(rest: seq<string>, sep: char)
    requires |rest| >= 1
    ensures Join([[]] + rest, sep) == [sep] + Join(rest, sep)
  {
    var lines := [[]] + rest;
    assert |lines| > 1 && lines[0] == [] && lines[1..] == rest;
    assert Join(lines, sep) == [] + [sep] + Join(rest, sep);
  }

  /** One step of `Split`: the first character ends the first piece or
      belongs to it. */
  lemma SplitCons(c: char, s: string, sep: char)
    ensures Split([c] + s, sep)
         == if c == sep then [[]] + Split(s, sep)
            else [[c] + Split(s, sep)[0]] + Split(s, sep)[1..]
  {
    assert ([c] + s)[1..] == s;
  }

  /** Joining pieces whose first is non-empty starts with that piece's first
      character, followed by the join with that character removed. */
  lemma JoinHead(lines: seq<string>, sep: char)
    requires |lines| >= 1 && lines[0] != []
    ensures Join(lines, sep) == [lines[0][0]] + Join([lines[0][1..]] + lines[1..], sep)
  {
    var shorter := [lines[0][1..]] + lines[1..];
    assert shorter[1..] == lines[1..];
    assert lines[0] == [lines[0][0]] + lines[0][1..];
  }

  /** Splitting a join of separator-free pieces gives back the pieces. */
  lemma {:induction false} SplitJoin(lines: seq<string>, sep: char)
    requires |lines| >= 1
    requires forall k :: 0 <= k < |lines| ==> sep !in lines[k]
    ensures Split(Join(lines, sep), sep) == lines
    decreases |lines|, |lines[0]|
  {
    var head := lines[0];
    if head == [] {
      if |lines| > 1 {
        var tail := lines[1..];
        SplitJoin(tail, sep);
        assert Join(lines, sep) == [sep] + Join(tail, sep);
        SplitCons(sep, Join(tail, sep), sep);
        FrontTail(lines);
      }
    } else {
      var shorter := [head[1..]] + lines[1..];
      forall k | 0 <= k < |shorter|
        ensures sep !in shorter[k]
      {
        if k == 0 {
          assert forall c :: c in head[1..] ==> c in head;
        } else {
          assert shorter[k] == lines[k];
        }
      }
      SplitJoin(shorter, sep);
      JoinHead(lines, sep);
      assert head[0] != sep by { assert head[0] in head; }
      SplitCons(head[0], Join(shorter, sep), sep);
      assert [head[0]] + head[1..] == head;
      FrontTail(lines);
    }
  }

  /** `t` is the slice of `s` that starts at index `a`. */
  predicate SliceAt(t: string, s: string, a: int) {
    0 <= a && a + |t| <= |s| && s[a..a + |t|] == t
  }

  /** Every piece of a split is a contiguous slice of the text; `a` is
      where it starts. */
  lemma {:induction false} SplitPieceIsSlice(s: string, sep: char, k: int) returns (a: nat)
    requires 0 <= k < |Split(s, sep)|
    ensures PieceAt(Split(s, sep)[k], s, a, sep)
    ensures k == 0 <==> a == 0
    decreases |s|
  {
    if k == 0 || s == [] {
      a := 0;
    } else {
      var rest := Split(s[1..], sep);
      FrontTail(s);
      SplitCons(s[0], s[1..], sep);
      var j := if s[0] == sep then k - 1 else k;
      assert Split(s, sep)[k] == rest[j];
      var b := SplitPieceIsSlice(s[1..], sep, j);
      PieceShift(rest[j], s, b, sep);
      a := b + 1;
    }
  }

  /** `t` is the slice of `s` from index `a` up to a separator or an end of
      `s` on either side. */
  predicate PieceAt(t: string, s: string, a: int, sep: char) {
    && SliceAt(t, s, a)
    && (a > 0 ==> s[a - 1] == sep)
    && (a + |t| < |s| ==> s[a + |t|] == sep)
  }

  /** A piece of the tail is a piece of the whole, one further on, when the
      whole starts with a separator or the piece does not start the tail. */
  lemma PieceShift(t: string, s: string, b: int, sep: char)
    requires s != [] && PieceAt(t, s[1..], b, sep)
    requires b == 0 ==> s[0] == sep
    ensures PieceAt(t, s, b + 1, sep)
  {
    var u := s[1..];
    var x, y := u[b..b + |t|], s[b + 1..b + 1 + |t|];
    forall i | 0 <= i < |x|
      ensures x[i] == y[i]
    {
      assert u[b + i] == s[b + 1 + i];
    }
    assert x == y;
    if b > 0 {
      assert u[b - 1] == s[b];
    }
    if b + |t| < |u| {
      assert u[b + |t|] == s[b + 1 + |t|];
    }
  }
}
