/** The HTML-to-text normaliser of the documentation tool: five global
    regular-expression replacements followed by a trim, each pass a total
    function on strings.

    A global replace scans left to right: where the pattern matches, the
    match is replaced and scanning resumes after it; elsewhere one character
    is copied. None of the five patterns matches the empty string, so the
    scan always moves forward. */
module HtmlText {
  import opened Text
  import opened Wrappers

  /** The five patterns, in the order the normaliser applies them. */
  datatype Pass =
    | ClosingBlockTag  // a closing block-level tag, as `</p>` or `</H2>`
    | OpeningBlockTag  // an opening block-level or line-break tag with attributes, as `<div class="x">` or `<br/>`
    | AnyTag           // `<`, one or more characters other than `>`, then `>`
    | BlankLineRun     // a line break and all the whitespace after it
    | SpaceRun         // two or more whitespace characters

  /** The one-character replacement of each pattern. */
  function ReplacementChar(p: Pass): char {
    match p
    case ClosingBlockTag => '\n'
    case OpeningBlockTag => '\n'
    case AnyTag => ' '
    case BlankLineRun => '\n'
    case SpaceRun => ' '
  }

  /** Index of the first `c` in `s` at or after `from`. */
  function FindFrom(s: string, c: char, from: nat): (r: Option<nat>)
    ensures r.Some? ==> from <= r.value < |s| && s[r.value] == c
    ensures r.Some? ==> forall k :: from <= k < r.value ==> s[k] != c
    ensures r.None? ==> forall k :: from <= k < |s| ==> s[k] != c
    decreases |s| - from
  {
    if from >= |s| then None
    else if s[from] == c then Some(from)
    else FindFrom(s, c, from + 1)
  }

  /** The first `c` at or after `from` is the one `FindFrom` returns. */
  lemma FindFromFirst(s: string, c: char, from: nat, j: nat)
    requires from <= j < |s| && s[j] == c
    requires forall k :: from <= k < j ==> s[k] != c
    ensures FindFrom(s, c, from) == Some(j)
  {
  }

  /** `s` starts with `name`, compared case-insensitively (the `i` flag). */
  predicate StartsWithName(s: string, name: string) {
    |name| <= |s| && forall i :: 0 <= i < |name| ==> LowerChar(s[i]) == name[i]
  }

  /** Length of the block-level tag name `s` starts with, 0 if none: `p`,
      `div`, `h1` to `h6`, `li`, `tr`, `dt`, `dd`, and `br` when `withBr`.
      No alternative is a prefix of another, so the regular expression's
      left-to-right choice among them is never observable. */
  function BlockNameLen(s: string, withBr: bool): (n: nat)
    ensures n <= |s|
    ensures forall i :: 0 <= i < n ==> IsWordChar(s[i])
  {
    if StartsWithName(s, "div") then 3
    else if StartsWithName(s, "li") || StartsWithName(s, "tr")
         || StartsWithName(s, "dt") || StartsWithName(s, "dd") then 2
    else if withBr && StartsWithName(s, "br") then 2
    else if |s| >= 2 && LowerChar(s[0]) == 'h' && '1' <= s[1] <= '6' then 2
    else if StartsWithName(s, "p") then 1
    else 0
  }

  /** Length of the closing block tag at the start of `s`: `</`, a block
      name, then `>` immediately. */
  function ClosingTagLen(s: string): (n: nat)
    ensures n <= |s|
    ensures n > 0 ==> s[0] == '<' && s[n - 1] == '>'
    ensures n > 0 ==> forall i :: 0 <= i < n ==> s[i] != '\n'
    ensures n > 0 ==> forall i :: 0 < i < n ==> s[i] != '<'
    ensures n > 0 ==> s[1] == '/' && BlockNameLen(s[2..], false) == n - 3
  {
    if |s| >= 2 && s[0] == '<' && s[1] == '/' then
      var name := BlockNameLen(s[2..], false);
      if name > 0 && 2 + name < |s| && s[2 + name] == '>' then name + 3 else 0
    else 0
  }

  /** Length of the opening block tag at the start of `s`: `<`, a block
      name (or `br`), a word boundary, then everything up to the first `>`.
      The boundary excludes `<pre>`, `<link>` and `<track>`. */
  function OpeningTagLen(s: string): (n: nat)
    ensures n <= |s|
    ensures n > 0 ==> s[0] == '<' && s[n - 1] == '>'
    ensures n > 0 ==> var name := BlockNameLen(s[1..], true);
      name > 0 && 1 + name < |s| && !IsWordChar(s[1 + name])
      && FindFrom(s, '>', 1 + name) == Some(n - 1)
  {
    if |s| >= 1 && s[0] == '<' then
      var name := BlockNameLen(s[1..], true);
      if name > 0 && 1 + name < |s| && !IsWordChar(s[1 + name]) then
        match FindFrom(s, '>', 1 + name)
        case Some(j) => j + 1
        case None => 0
      else 0
    else 0
  }

  /** Length of the tag at the start of `s`: `<`, at least one character
      other than `>`, and the first `>` after them. */
  function AnyTagLen(s: string): (n: nat)
    ensures n <= |s|
    ensures n > 0 ==> s[0] == '<' && s[n - 1] == '>'
    ensures n > 0 ==> TagAt(s, 0, n - 1)
  {
    if |s| >= 2 && s[0] == '<' && s[1] != '>' then
      match FindFrom(s, '>', 2)
      case Some(j) => j + 1
      case None => 0
    else 0
  }

  /** Length of the run of whitespace at the start of `s` when it begins
      with a line break; the greedy inner `\s*` swallows every later line
      break, so one repetition of the group takes the whole run. */
  function BlankLineRunLen(s: string): (n: nat)
    ensures n <= |s|
    ensures n > 0 <==> s != [] && s[0] == '\n'
    ensures forall i :: 0 <= i < n ==> IsSpace(s[i])
    ensures 0 < n < |s| ==> !IsSpace(s[n])
  {
    if s != [] && s[0] == '\n' then 1 + LeadingSpaces(s[1..]) else 0
  }

  /** Length of the run of whitespace at the start of `s` when it holds at
      least two characters. */
  function SpaceRunLen(s: string): (n: nat)
    ensures n <= |s| && n != 1
    ensures forall i :: 0 <= i < n ==> IsSpace(s[i])
    ensures 0 < n < |s| ==> !IsSpace(s[n])
    ensures n == 0 <==> |s| < 2 || !IsSpace(s[0]) || !IsSpace(s[1])
  {
    var n := LeadingSpaces(s);
    if n >= 2 then n else 0
  }

  /** Length of the match of `p` at the start of `s`, 0 when there is none. */
  function MatchLen(p: Pass, s: string): (n: nat)
    ensures n <= |s|
    ensures n > 0 && (p.ClosingBlockTag? || p.OpeningBlockTag? || p.AnyTag?) ==> s[0] == '<'
    ensures n > 0 && (p.BlankLineRun? || p.SpaceRun?) ==> forall i :: 0 <= i < n ==> IsSpace(s[i])
  {
    match p
    case ClosingBlockTag => ClosingTagLen(s)
    case OpeningBlockTag => OpeningTagLen(s)
    case AnyTag => AnyTagLen(s)
    case BlankLineRun => BlankLineRunLen(s)
    case SpaceRun => SpaceRunLen(s)
  }

  /** `String.prototype.replace` with a global pattern `p` and a
      one-character replacement. It never lengthens the text and never
      introduces a character other than the replacement. */
  function ReplaceAll(p: Pass, s: string): (r: string)
    ensures |r| <= |s|
    ensures s != [] ==> r != []
    ensures forall c :: c in r ==> c in s || c == ReplacementChar(p)
    decreases |s|
  {
    if s == [] then []
    else
      var n := MatchLen(p, s);
      if n > 0 then [ReplacementChar(p)] + ReplaceAll(p, s[n..])
      else [s[0]] + ReplaceAll(p, s[1..])
  }

  /** Where `p` does not match, the first character is copied. */
  lemma ReplaceAllHead(p: Pass, s: string)
    requires s != []
    ensures ReplaceAll(p, s)[0] == if MatchLen(p, s) > 0 then ReplacementChar(p) else s[0]
  {
  }

  /** Where no match starts, a pass copies the text unchanged. */
  lemma {:induction false} ReplaceAllKeepsPlainText(p: Pass, s: string)
    requires forall i :: 0 <= i < |s| ==> MatchLen(p, s[i..]) == 0
    ensures ReplaceAll(p, s) == s
    decreases |s|
  {
    if s != [] {
      assert s[0..] == s;
      var rest := s[1..];
      forall i | 0 <= i < |rest| ensures MatchLen(p, rest[i..]) == 0 {
        assert rest[i..] == s[i + 1..];
      }
      ReplaceAllKeepsPlainText(p, rest);
    }
  }

  /** A match becomes the pattern's one replacement character, and the scan
      resumes right after it. */
  lemma ReplaceAllReplacesMatch(p: Pass, m: string, b: string)
    requires m != [] && MatchLen(p, m + b) == |m|
    ensures ReplaceAll(p, m + b) == [ReplacementChar(p)] + ReplaceAll(p, b)
  {
    assert (m + b)[|m|..] == b;
  }

  /** A pass treats `a` and `b` apart when no match starting in `a` depends
      on what follows `a`: every such match is the same with `b` after it as
      without. */
  lemma {:induction false} ReplaceAllConcat(p: Pass, a: string, b: string)
    requires forall i :: 0 <= i < |a| ==> MatchLen(p, (a + b)[i..]) == MatchLen(p, a[i..])
    ensures ReplaceAll(p, a + b) == ReplaceAll(p, a) + ReplaceAll(p, b)
    decreases |a|
  {
    if a != [] {
      var s := a + b;
      assert s[0..] == s && a[0..] == a;
      var n := MatchLen(p, a);
      var m := if n > 0 then n else 1;
      var rest := a[m..];
      DropConcat(a, b, m);
      forall i | 0 <= i < |rest|
        ensures MatchLen(p, (rest + b)[i..]) == MatchLen(p, rest[i..])
      {
        DropConcat(rest, b, i);
        DropDropN(a, m, i);
        DropConcat(a, b, m + i);
      }
      ReplaceAllConcat(p, rest, b);
      var x := if n > 0 then ReplacementChar(p) else a[0];
      ReplaceAllStep(p, s, m, x);
      ReplaceAllStep(p, a, m, x);
      Regroup([x], ReplaceAll(p, rest), ReplaceAll(p, b));
      assert ReplaceAll(p, s) == [x] + ReplaceAll(p, rest + b);
      assert ReplaceAll(p, a) == [x] + ReplaceAll(p, rest);
    } else {
      assert a + b == b;
    }
  }

  /** One step of the scan: the match, or the one copied character, and
      the rest of the text after it. */
  lemma ReplaceAllStep(p: Pass, s: string, m: nat, x: char)
    requires s != []
    requires m == (if MatchLen(p, s) > 0 then MatchLen(p, s) else 1)
    requires x == (if MatchLen(p, s) > 0 then ReplacementChar(p) else s[0])
    ensures ReplaceAll(p, s) == [x] + ReplaceAll(p, s[m..])
  {
  }

  /** A tag pattern starts with `<`, so a tag pass copies text without `<`,
      alone or in front of anything. */
  lemma TagPassAfterPlainText(p: Pass, a: string, b: string)
    requires p.ClosingBlockTag? || p.OpeningBlockTag? || p.AnyTag?
    requires '<' !in a
    ensures ReplaceAll(p, a) == a
    ensures ReplaceAll(p, a + b) == a + ReplaceAll(p, b)
  {
    forall i | 0 <= i < |a|
      ensures MatchLen(p, a[i..]) == 0 && MatchLen(p, (a + b)[i..]) == 0
    {
      assert a[i..][0] == a[i] == (a + b)[i..][0];
    }
    ReplaceAllKeepsPlainText(p, a);
    ReplaceAllConcat(p, a, b);
  }

  // ---------------------------------------------------------------------
  // What the normalised text looks like

  /** `s` holds a tag from index `i` to index `j`: `<`, one or more
      characters other than `>`, then `>`. */
  predicate TagAt(s: string, i: int, j: int) {
    0 <= i && i + 1 < j < |s| && s[i] == '<' && s[j] == '>'
    && forall k :: i < k < j ==> s[k] != '>'
  }

  predicate ContainsTag(s: string) {
    exists i, j | 0 <= i < j < |s| :: TagAt(s, i, j)
  }

  /** Working form of "no tag": a `<` that is not directly followed by `>`
      has no `>` anywhere after it. */
  predicate NoTags(s: string) {
    forall i, j :: 0 <= i < j < |s| && s[i] == '<' && s[i + 1] != '>' ==> s[j] != '>'
  }

  /** No two whitespace characters are adjacent. */
  predicate NoDoubleSpace(s: string) {
    forall i :: 0 <= i < |s| - 1 ==> !IsSpace(s[i]) || !IsSpace(s[i + 1])
  }

  /** No line break is followed by whitespace: there are no blank lines and
      no line starts with whitespace. */
  predicate NoSpaceAfterBreak(s: string) {
    forall i :: 0 <= i < |s| - 1 && s[i] == '\n' ==> !IsSpace(s[i + 1])
  }

  /** The working form of "no tag" is exactly the absence of a tag. */
  lemma NoTagsIffTagFree(s: string)
    ensures NoTags(s) <==> !ContainsTag(s)
  {
    if !NoTags(s) {
      var i, j :| 0 <= i < j < |s| && s[i] == '<' && s[i + 1] != '>' && s[j] == '>';
      var first := FindFrom(s, '>', i + 1);
      assert first.Some?;
      assert TagAt(s, i, first.value);
    }
    if ContainsTag(s) {
      var i, j :| 0 <= i < j < |s| && TagAt(s, i, j);
      assert s[i + 1] != '>';
    }
  }

  lemma NoTagsCons(c: char, t: string)
    requires NoTags(t)
    requires c == '<' && t != [] && t[0] != '>' ==> '>' !in t
    ensures NoTags([c] + t)
  {
    var s := [c] + t;
    forall i, j | 0 <= i < j < |s| && s[i] == '<' && s[i + 1] != '>'
      ensures s[j] != '>'
    {
      if i > 0 {
        assert t[i - 1] == '<' && t[i] != '>';
      } else {
        assert t[j - 1] in t;
      }
    }
  }

  lemma NoTagsSlice(s: string, a: int, b: int)
    requires NoTags(s)
    requires 0 <= a <= b <= |s|
    ensures NoTags(s[a..b])
  {
    var t := s[a..b];
    forall i, j | 0 <= i < j < |t| && t[i] == '<' && t[i + 1] != '>'
      ensures t[j] != '>'
    {
      assert s[a + i] == '<' && s[a + i + 1] != '>';
    }
  }

  lemma NoDoubleSpaceCons(c: char, t: string)
    requires NoDoubleSpace(t)
    requires IsSpace(c) && t != [] ==> !IsSpace(t[0])
    ensures NoDoubleSpace([c] + t)
  {
    var s := [c] + t;
    forall i | 0 <= i < |s| - 1
      ensures !IsSpace(s[i]) || !IsSpace(s[i + 1])
    {
      if i > 0 {
        assert s[i] == t[i - 1] && s[i + 1] == t[i];
      }
    }
  }

  lemma NoDoubleSpaceSlice(s: string, a: int, b: int)
    requires NoDoubleSpace(s)
    requires 0 <= a <= b <= |s|
    ensures NoDoubleSpace(s[a..b])
  {
    var t := s[a..b];
    forall i | 0 <= i < |t| - 1
      ensures !IsSpace(t[i]) || !IsSpace(t[i + 1])
    {
      assert t[i] == s[a + i] && t[i + 1] == s[a + i + 1];
    }
  }

  lemma NoSpaceAfterBreakCons(c: char, t: string)
    requires NoSpaceAfterBreak(t)
    requires c == '\n' && t != [] ==> !IsSpace(t[0])
    ensures NoSpaceAfterBreak([c] + t)
  {
    var s := [c] + t;
    forall i | 0 <= i < |s| - 1 && s[i] == '\n'
      ensures !IsSpace(s[i + 1])
    {
      if i > 0 {
        assert s[i] == t[i - 1] && s[i + 1] == t[i];
      }
    }
  }

  // ---------------------------------------------------------------------
  // The passes and what each guarantees

  /** Pass 3: no tag survives the tag-stripping pass. */
  lemma {:induction false} StripTagsLeavesNoTags(s: string)
    ensures NoTags(ReplaceAll(AnyTag, s))
    decreases |s|
  {
    if s != [] {
      var n := MatchLen(AnyTag, s);
      if n > 0 {
        StripTagsLeavesNoTags(s[n..]);
        NoTagsCons(' ', ReplaceAll(AnyTag, s[n..]));
      } else {
        var t := ReplaceAll(AnyTag, s[1..]);
        StripTagsLeavesNoTags(s[1..]);
        if s[0] == '<' && t != [] && t[0] != '>' {
          ReplaceAllHead(AnyTag, s[1..]);
          assert s[1] != '>';
          assert FindFrom(s, '>', 2).None?;
          assert '>' !in s[1..] by {
            forall k | 0 <= k < |s[1..]| ensures s[1..][k] != '>' {
              assert s[1..][k] == s[k + 1];
            }
          }
        }
        NoTagsCons(s[0], t);
      }
    }
  }

  /** Passes 4 and 5 only shrink whitespace runs, so they cannot create a tag. */
  lemma {:induction false} WhitespacePassKeepsNoTags(p: Pass, s: string)
    requires p.BlankLineRun? || p.SpaceRun?
    requires NoTags(s)
    ensures NoTags(ReplaceAll(p, s))
    decreases |s|
  {
    if s != [] {
      var n := MatchLen(p, s);
      if n > 0 {
        NoTagsSlice(s, n, |s|);
        WhitespacePassKeepsNoTags(p, s[n..]);
        NoTagsCons(ReplacementChar(p), ReplaceAll(p, s[n..]));
      } else {
        var t := ReplaceAll(p, s[1..]);
        NoTagsSlice(s, 1, |s|);
        WhitespacePassKeepsNoTags(p, s[1..]);
        if s[0] == '<' && t != [] && t[0] != '>' {
          ReplaceAllHead(p, s[1..]);
          assert s[1] != '>';
          assert '>' !in s[1..] by {
            forall k | 0 <= k < |s[1..]| ensures s[1..][k] != '>' {
              assert s[1..][k] == s[k + 1];
            }
          }
        }
        NoTagsCons(s[0], t);
      }
    }
  }

  /** Pass 4: after it, no line break is followed by whitespace. */
  lemma {:induction false} CollapseBlankLinesLeavesNoSpaceAfterBreak(s: string)
    ensures NoSpaceAfterBreak(ReplaceAll(BlankLineRun, s))
    decreases |s|
  {
    if s != [] {
      var n := MatchLen(BlankLineRun, s);
      if n > 0 {
        var rest := s[n..];
        CollapseBlankLinesLeavesNoSpaceAfterBreak(rest);
        if rest != [] {
          assert !IsSpace(s[n]);
          ReplaceAllHead(BlankLineRun, rest);
        }
        NoSpaceAfterBreakCons('\n', ReplaceAll(BlankLineRun, rest));
      } else {
        CollapseBlankLinesLeavesNoSpaceAfterBreak(s[1..]);
        NoSpaceAfterBreakCons(s[0], ReplaceAll(BlankLineRun, s[1..]));
      }
    }
  }

  /** Pass 5: after it, no two whitespace characters are adjacent. */
  lemma {:induction false} CollapseSpacesLeavesNoDoubleSpace(s: string)
    ensures NoDoubleSpace(ReplaceAll(SpaceRun, s))
    decreases |s|
  {
    if s != [] {
      var n := MatchLen(SpaceRun, s);
      var rest := if n > 0 then s[n..] else s[1..];
      CollapseSpacesLeavesNoDoubleSpace(rest);
      var c := if n > 0 then ' ' else s[0];
      if IsSpace(c) && rest != [] {
        assert !IsSpace(rest[0]) by {
          if n > 0 {
            assert rest[0] == s[LeadingSpaces(s)];
          } else {
            assert LeadingSpaces(s) <= 1;
            assert rest[0] == s[1];
          }
        }
        ReplaceAllHead(SpaceRun, rest);
      }
      NoDoubleSpaceCons(c, ReplaceAll(SpaceRun, rest));
    }
  }

  // ---------------------------------------------------------------------
  // The block-tag passes leave no block tag behind

  /** Whether a block name matches depends only on the name's own
      characters: no alternative is a prefix of another. */
  lemma BlockNameLenPrefix(x: string, y: string, withBr: bool)
    requires BlockNameLen(x, withBr) > 0
    requires BlockNameLen(x, withBr) <= |y|
    requires x[..BlockNameLen(x, withBr)] == y[..BlockNameLen(x, withBr)]
    ensures BlockNameLen(y, withBr) == BlockNameLen(x, withBr)
  {
    var n := BlockNameLen(x, withBr);
    assert x[0] == x[..n][0] == y[0];
    if n == 1 {
      assert StartsWithName(y, "p");
    } else {
      assert x[1] == x[..n][1] == y[1];
      if n == 3 {
        assert x[2] == x[..n][2] == y[2];
        assert StartsWithName(y, "div");
      } else {
        assert !StartsWithName(y, "div");
      }
    }
  }

  /** A closing block tag is recognised from its own characters alone. */
  lemma ClosingTagLenPrefix(a: string, b: string)
    requires ClosingTagLen(a) > 0
    requires ClosingTagLen(a) <= |b| && a[..ClosingTagLen(a)] == b[..ClosingTagLen(a)]
    ensures ClosingTagLen(b) == ClosingTagLen(a)
  {
    var n := ClosingTagLen(a);
    var name := BlockNameLen(a[2..], false);
    assert forall i :: 0 <= i < n ==> a[i] == b[i] by {
      forall i | 0 <= i < n ensures a[i] == b[i] {
        assert a[..n][i] == b[..n][i];
      }
    }
    assert a[2..][..name] == b[2..][..name];
    BlockNameLenPrefix(a[2..], b[2..], false);
  }

  /** Where the result of a block-tag pass holds no line break, the pass
      copied the source: no match started there. */
  lemma {:induction false} TagPassCopiesUntilBreak(p: Pass, s: string, m: nat)
    requires p.ClosingBlockTag? || p.OpeningBlockTag?
    requires m <= |ReplaceAll(p, s)|
    requires '\n' !in ReplaceAll(p, s)[..m]
    ensures m <= |s|
    ensures ReplaceAll(p, s) == s[..m] + ReplaceAll(p, s[m..])
    decreases m
  {
    if m > 0 {
      var r := ReplaceAll(p, s);
      var t := s[1..];
      var rt := ReplaceAll(p, t);
      NotInPrefix(r[0], r[1..], '\n', m);
      CopiedHead(p, s);
      NotInPrefix(s[0], rt, '\n', m);
      TagPassCopiesUntilBreak(p, t, m - 1);
      DropDrop(s, m);
      PrefixStep(s, rt, ReplaceAll(p, s[m..]), m);
    }
  }

  lemma PrefixStep(s: string, rt: string, rest: string, m: nat)
    requires 0 < m <= |s|
    requires rt == s[1..][..m - 1] + rest
    ensures [s[0]] + rt == s[..m] + rest
  {
    assert [s[0]] + s[1..][..m - 1] == s[..m];
  }

  /** Where a block-tag pass emits something other than a line break, it
      copied the first character. */
  lemma CopiedHead(p: Pass, s: string)
    requires p.ClosingBlockTag? || p.OpeningBlockTag?
    requires ReplaceAll(p, s) != [] && ReplaceAll(p, s)[0] != '\n'
    ensures s != [] && MatchLen(p, s) == 0
    ensures ReplaceAll(p, s) == [s[0]] + ReplaceAll(p, s[1..])
  {
  }

  /** A closing block tag at the start of pass 1's result would be one at
      the start of its source, where the pass found none. */
  lemma ClosingTagNotAtStart(s: string)
    requires ClosingTagLen(s) == 0
    ensures ClosingTagLen(ReplaceAll(ClosingBlockTag, s)) == 0
  {
    var r := ReplaceAll(ClosingBlockTag, s);
    if ClosingTagLen(r) > 0 {
      var n := ClosingTagLen(r);
      assert forall i :: 0 <= i < n ==> r[..n][i] == r[i];
      TagPassCopiesUntilBreak(ClosingBlockTag, s, n);
      assert r[..n] == s[..n];
      ClosingTagLenPrefix(r, s);
      assert false;
    }
  }

  /** An opening block tag that pass 2 emitted after copying its `<` and
      name from `s` has its parts in `s`: the character after the name is
      copied or is the `<` of a replaced tag, and its `>` is the source's. */
  lemma OpeningTagTraced(r: string, s: string, k: nat) returns (q: nat)
    requires OpeningTagLen(r) > 0 && k == BlockNameLen(r[1..], true)
    requires 1 + k <= |s| && r[..1 + k] == s[..1 + k]
    requires r[1 + k..] == ReplaceAll(OpeningBlockTag, s[1 + k..])
    ensures s[0] == '<' && BlockNameLen(s[1..], true) == k
    ensures 1 + k <= q < |s| && !IsWordChar(s[1 + k]) && s[q] == '>'
  {
    var n := OpeningTagLen(r);
    var u := s[1 + k..];
    NamePartTraced(r, s, k);
    BoundaryTraced(u);
    var j := CloseTraced(u, n - 1 - (1 + k));
    q := 1 + k + j;
  }

  /** The `<` and the name of an opening block tag are not line breaks. */
  lemma NoBreakInName(r: string)
    requires OpeningTagLen(r) > 0
    ensures '\n' !in r[..1 + BlockNameLen(r[1..], true)]
  {
    var k := BlockNameLen(r[1..], true);
    assert forall i :: 0 <= i < k ==> r[1..][i] != '\n';
    assert forall i :: 0 <= i < 1 + k ==> r[i] != '\n' by {
      forall i | 0 <= i < 1 + k
        ensures r[i] != '\n'
      {
        if i > 0 {
          assert r[i] == r[1..][i - 1];
        }
      }
    }
  }

  lemma SuffixAfterPrefix(r: string, a: string, rest: string)
    requires r == a + rest
    ensures r[|a|..] == rest && r[..|a|] == a
  {
  }

  lemma NamePartTraced(r: string, s: string, k: nat)
    requires 0 < k && 1 + k <= |r| && 1 + k <= |s|
    requires BlockNameLen(r[1..], true) == k
    requires r[..1 + k] == s[..1 + k]
    ensures s[0] == r[0] && BlockNameLen(s[1..], true) == k
  {
    assert r[0] == r[..1 + k][0];
    assert r[1..][..k] == r[..1 + k][1..];
    assert s[1..][..k] == s[..1 + k][1..];
    BlockNameLenPrefix(r[1..], s[1..], true);
  }

  /** A non-word character at the start of pass 2's result is a copy or
      stands for a replaced tag, which starts with `<`. */
  lemma BoundaryTraced(u: string)
    requires ReplaceAll(OpeningBlockTag, u) != []
    requires !IsWordChar(ReplaceAll(OpeningBlockTag, u)[0])
    ensures u != [] && !IsWordChar(u[0])
  {
    ReplaceAllHead(OpeningBlockTag, u);
  }

  /** Pass 2 emits no `>` of its own. */
  lemma CloseTraced(u: string, j: int) returns (i: nat)
    requires 0 <= j < |ReplaceAll(OpeningBlockTag, u)| && ReplaceAll(OpeningBlockTag, u)[j] == '>'
    ensures i < |u| && u[i] == '>'
  {
    assert '>' in ReplaceAll(OpeningBlockTag, u);
    i :| 0 <= i < |u| && u[i] == '>';
  }

  /** Conversely, those parts make an opening block tag. */
  lemma OpeningTagFromParts(s: string, q: nat)
    requires s != [] && s[0] == '<'
    requires var k := BlockNameLen(s[1..], true);
      k > 0 && 1 + k <= q < |s| && !IsWordChar(s[1 + k]) && s[q] == '>'
    ensures OpeningTagLen(s) > 0
  {
  }

  // ---------------------------------------------------------------------
  // Every tag of each kind is matched whole

  /** Pass 1's pattern matches every closing block tag, `</`, a block name
      and `>`, whole, whatever follows it. */
  lemma ClosingTagMatches(name: string, b: string)
    requires BlockNameLen(name, false) == |name| > 0
    ensures ClosingTagLen("</" + name + ">" + b) == |name| + 3
  {
    var s := "</" + name + ">" + b;
    var y := name + ">" + b;
    assert s[2..] == y;
    assert name[..|name|] == y[..|name|];
    BlockNameLenPrefix(name, y, false);
    assert s[2 + |name|] == '>';
  }

  /** Pass 2's pattern matches every opening block tag whole: `<`, a block
      name (or `br`), attributes that do not continue the name and hold no
      `>`, then `>`. */
  lemma OpeningTagMatches(name: string, attrs: string, b: string)
    requires BlockNameLen(name, true) == |name| > 0
    requires attrs != [] ==> !IsWordChar(attrs[0])
    requires '>' !in attrs
    ensures OpeningTagLen("<" + name + attrs + ">" + b) == |name| + |attrs| + 2
  {
    var s := "<" + name + attrs + ">" + b;
    var k := |name|;
    var q := 1 + k + |attrs|;
    var y := s[1..];
    assert y[..k] == name[..k];
    BlockNameLenPrefix(name, y, true);
    assert s[q] == '>';
    assert !IsWordChar(s[1 + k]) by {
      if attrs != [] {
        assert s[1 + k] == attrs[0];
      }
    }
    forall j | 1 + k <= j < q ensures s[j] != '>' {
      assert s[j] == attrs[j - 1 - k];
    }
    FindFromFirst(s, '>', 1 + k, q);
  }

  /** Pass 3's pattern matches every tag whole: `<`, one or more characters
      other than `>`, then `>`. */
  lemma AnyTagMatches(inner: string, b: string)
    requires inner != [] && '>' !in inner
    ensures AnyTagLen("<" + inner + ">" + b) == |inner| + 2
  {
    var s := "<" + inner + ">" + b;
    var q := 1 + |inner|;
    assert s[1] == inner[0];
    assert s[q] == '>';
    forall j | 2 <= j < q ensures s[j] != '>' {
      assert s[j] == inner[j - 1];
    }
    FindFromFirst(s, '>', 2, q);
  }

  /** A closing block tag holds no `<` after its first character, so one
      that starts in `x` ends there when a `<` follows `x`. */
  lemma ClosingTagStopsAtAngle(x: string, y: string)
    requires x != [] && y != [] && y[0] == '<'
    ensures ClosingTagLen(x + y) == ClosingTagLen(x)
  {
    var s := x + y;
    if ClosingTagLen(x) > 0 {
      var n := ClosingTagLen(x);
      assert x[..n] == s[..n];
      ClosingTagLenPrefix(x, s);
    } else if ClosingTagLen(s) > 0 {
      var n := ClosingTagLen(s);
      assert s[|x|] == '<';
      assert s[..n] == x[..n];
      ClosingTagLenPrefix(s, x);
    }
  }

  /** An opening block tag at the start of pass 2's result would be one at
      the start of its source, where the pass found none. */
  lemma OpeningTagNotAtStart(s: string)
    requires OpeningTagLen(s) == 0
    ensures OpeningTagLen(ReplaceAll(OpeningBlockTag, s)) == 0
  {
    var r := ReplaceAll(OpeningBlockTag, s);
    if OpeningTagLen(r) > 0 {
      var k := BlockNameLen(r[1..], true);
      NoBreakInName(r);
      TagPassCopiesUntilBreak(OpeningBlockTag, s, 1 + k);
      SuffixAfterPrefix(r, s[..1 + k], ReplaceAll(OpeningBlockTag, s[1 + k..]));
      var q := OpeningTagTraced(r, s, k);
      OpeningTagFromParts(s, q);
      assert false;
    }
  }

  /** A block-tag pass leaves no match of its own pattern anywhere. */
  lemma {:induction false} TagPassLeavesNoMatch(p: Pass, s: string)
    requires p.ClosingBlockTag? || p.OpeningBlockTag?
    ensures forall i :: 0 <= i < |ReplaceAll(p, s)| ==> MatchLen(p, ReplaceAll(p, s)[i..]) == 0
    decreases |s|
  {
    if s != [] {
      var r := ReplaceAll(p, s);
      var n := MatchLen(p, s);
      var t := if n > 0 then s[n..] else s[1..];
      var rt := ReplaceAll(p, t);
      var x := if n > 0 then ReplacementChar(p) else s[0];
      TagPassLeavesNoMatch(p, t);
      assert r == [x] + rt;
      forall i | 0 <= i < |r|
        ensures MatchLen(p, r[i..]) == 0
      {
        if i > 0 {
          ConsDrop(x, rt, i);
        } else if n == 0 {
          if p.ClosingBlockTag? {
            ClosingTagNotAtStart(s);
          } else {
            OpeningTagNotAtStart(s);
          }
        }
      }
    }
  }

  // ---------------------------------------------------------------------
  // The normaliser, pass by pass

  /** Pass 1: every closing block-level tag becomes a line break, and none
      is left; text without `<` comes through unchanged. */
  function BreakClosingBlockTags(s: string): (r: string)
    ensures |r| <= |s|
    ensures forall c :: c in r ==> c in s || c == '\n'
    ensures forall i :: 0 <= i < |r| ==> ClosingTagLen(r[i..]) == 0
    ensures '<' !in s ==> r == s
  {
    TagPassLeavesNoMatch(ClosingBlockTag, s);
    assert '<' !in s ==> ReplaceAll(ClosingBlockTag, s) == s by {
      if '<' !in s { TagPassAfterPlainText(ClosingBlockTag, s, []); }
    }
    ReplaceAll(ClosingBlockTag, s)
  }

  /** Pass 2: every opening block-level or line-break tag becomes a line
      break, and none is left; text without `<` comes through unchanged. */
  function BreakOpeningBlockTags(s: string): (r: string)
    ensures |r| <= |s|
    ensures forall c :: c in r ==> c in s || c == '\n'
    ensures forall i :: 0 <= i < |r| ==> OpeningTagLen(r[i..]) == 0
    ensures '<' !in s ==> r == s
  {
    TagPassLeavesNoMatch(OpeningBlockTag, s);
    assert '<' !in s ==> ReplaceAll(OpeningBlockTag, s) == s by {
      if '<' !in s { TagPassAfterPlainText(OpeningBlockTag, s, []); }
    }
    ReplaceAll(OpeningBlockTag, s)
  }

  /** Pass 3: every remaining tag becomes a space, and no tag is left;
      text without `<` comes through unchanged. */
  function StripTags(s: string): (r: string)
    ensures !ContainsTag(r)
    ensures forall c :: c in r ==> c in s || c == ' '
    ensures '<' !in s ==> r == s
  {
    var r := ReplaceAll(AnyTag, s);
    StripTagsLeavesNoTags(s);
    NoTagsIffTagFree(r);
    assert '<' !in s ==> r == s by {
      if '<' !in s { TagPassAfterPlainText(AnyTag, s, []); }
    }
    r
  }

  /** Pass 4: every run of whitespace that starts with a line break becomes
      a single line break; text in which no line break is followed by
      whitespace comes through unchanged. */
  function CollapseBlankLines(s: string): (r: string)
    ensures NoSpaceAfterBreak(r)
    ensures !ContainsTag(s) ==> !ContainsTag(r)
    ensures NoSpaceAfterBreak(s) ==> r == s
  {
    var r := ReplaceAll(BlankLineRun, s);
    CollapseBlankLinesLeavesNoSpaceAfterBreak(s);
    NoTagsIffTagFree(s);
    assert NoSpaceAfterBreak(s) ==> r == s by {
      if NoSpaceAfterBreak(s) {
        CollapseBlankLinesKeepsSingleBreaks(s);
      }
    }
    assert NoTags(s) ==> NoTags(r) by {
      if NoTags(s) {
        WhitespacePassKeepsNoTags(BlankLineRun, s);
      }
    }
    NoTagsIffTagFree(r);
    r
  }

  /** Pass 5: every run of two or more whitespace characters becomes one
      space; text without two adjacent whitespace characters comes through
      unchanged. A single line break survives; a space next to a line
      break does not, and the two lines it separated become one. */
  function CollapseSpaces(s: string): (r: string)
    ensures NoDoubleSpace(r)
    ensures !ContainsTag(s) ==> !ContainsTag(r)
    ensures NoDoubleSpace(s) ==> r == s
  {
    var r := ReplaceAll(SpaceRun, s);
    CollapseSpacesLeavesNoDoubleSpace(s);
    NoTagsIffTagFree(s);
    assert NoDoubleSpace(s) ==> r == s by {
      if NoDoubleSpace(s) {
        CollapseSpacesKeepsSingleSpaces(s);
      }
    }
    assert NoTags(s) ==> NoTags(r) by {
      if NoTags(s) {
        WhitespacePassKeepsNoTags(SpaceRun, s);
      }
    }
    NoTagsIffTagFree(r);
    r
  }

  /** Pass 5 finds no run of two whitespace characters in text without
      one. */
  lemma CollapseSpacesKeepsSingleSpaces(s: string)
    requires NoDoubleSpace(s)
    ensures ReplaceAll(SpaceRun, s) == s
  {
    forall i | 0 <= i < |s| ensures MatchLen(SpaceRun, s[i..]) == 0 {
      if i + 1 < |s| {
        assert s[i..][0] == s[i] && s[i..][1] == s[i + 1];
      }
    }
    ReplaceAllKeepsPlainText(SpaceRun, s);
  }

  /** Pass 4 keeps a line break that no whitespace follows: its match is
      the break alone, replaced by a break. */
  lemma {:induction false} CollapseBlankLinesKeepsSingleBreaks(s: string)
    requires NoSpaceAfterBreak(s)
    ensures ReplaceAll(BlankLineRun, s) == s
    decreases |s|
  {
    if s != [] {
      var rest := s[1..];
      if s[0] == '\n' && rest != [] {
        assert !IsSpace(s[1]);
      }
      forall i | 0 <= i < |rest| - 1 && rest[i] == '\n' ensures !IsSpace(rest[i + 1]) {
        assert rest[i] == s[i + 1] && rest[i + 1] == s[i + 2];
      }
      CollapseBlankLinesKeepsSingleBreaks(rest);
    }
  }

  // ---------------------------------------------------------------------
  // What each pass replaces, and that it keeps the text around it

  /** No closing block tag that starts in `a` reaches into text that
      starts with `<`. */
  lemma ClosingTagsStayBefore(a: string, rest: string)
    requires rest != [] && rest[0] == '<'
    ensures forall i :: 0 <= i < |a| ==>
      MatchLen(ClosingBlockTag, (a + rest)[i..]) == MatchLen(ClosingBlockTag, a[i..])
  {
    forall i | 0 <= i < |a|
      ensures MatchLen(ClosingBlockTag, (a + rest)[i..]) == MatchLen(ClosingBlockTag, a[i..])
    {
      DropConcat(a, rest, i);
      ClosingTagStopsAtAngle(a[i..], rest);
    }
  }

  /** Pass 1 turns every closing block tag into one line break and treats
      the text on either side of it on its own. */
  lemma ClosingTagBecomesBreak(a: string, name: string, b: string)
    requires BlockNameLen(name, false) == |name| > 0
    ensures BreakClosingBlockTags(a + ("</" + name + ">") + b)
         == BreakClosingBlockTags(a) + "\n" + BreakClosingBlockTags(b)
  {
    var tag := "</" + name + ">";
    ClosingTagsStayBefore(a, tag + b);
    ReplaceAllConcat(ClosingBlockTag, a, tag + b);
    ClosingTagMatches(name, b);
    ReplaceAllReplacesMatch(ClosingBlockTag, tag, b);
    Regroup(a, tag, b);
    Regroup(ReplaceAll(ClosingBlockTag, a), "\n", ReplaceAll(ClosingBlockTag, b));
  }

  /** Pass 2 turns an opening block tag after text without `<` into one
      line break, keeps that text, and goes on after the tag. */
  lemma OpeningTagBecomesBreak(a: string, name: string, attrs: string, b: string)
    requires '<' !in a
    requires BlockNameLen(name, true) == |name| > 0
    requires attrs != [] ==> !IsWordChar(attrs[0])
    requires '>' !in attrs
    ensures BreakOpeningBlockTags(a + ("<" + name + attrs + ">") + b)
         == a + "\n" + BreakOpeningBlockTags(b)
  {
    var tag := "<" + name + attrs + ">";
    TagPassAfterPlainText(OpeningBlockTag, a, tag + b);
    OpeningTagMatches(name, attrs, b);
    ReplaceAllReplacesMatch(OpeningBlockTag, tag, b);
    Regroup(a, tag, b);
    Regroup(a, "\n", ReplaceAll(OpeningBlockTag, b));
  }

  /** Pass 3 turns a tag after text without `<` into one space, keeps that
      text, and goes on after the tag. */
  lemma TagBecomesSpace(a: string, inner: string, b: string)
    requires '<' !in a
    requires inner != [] && '>' !in inner
    ensures StripTags(a + ("<" + inner + ">") + b) == a + " " + StripTags(b)
  {
    var tag := "<" + inner + ">";
    TagPassAfterPlainText(AnyTag, a, tag + b);
    AnyTagMatches(inner, b);
    ReplaceAllReplacesMatch(AnyTag, tag, b);
    Regroup(a, tag, b);
    Regroup(a, " ", ReplaceAll(AnyTag, b));
  }

  /** Whitespace that runs up to a non-space is all of the leading
      whitespace. */
  lemma {:induction false} LeadingSpacesOfRun(ws: string, b: string)
    requires forall i :: 0 <= i < |ws| ==> IsSpace(ws[i])
    requires b != [] ==> !IsSpace(b[0])
    ensures LeadingSpaces(ws + b) == |ws|
    decreases |ws|
  {
    if ws == [] {
      assert ws + b == b;
    } else {
      assert (ws + b)[1..] == ws[1..] + b;
      LeadingSpacesOfRun(ws[1..], b);
    }
  }

  /** Text that ends in a non-space has the same leading whitespace
      whatever follows it. */
  lemma LeadingSpacesBeforeText(x: string, y: string)
    requires x != [] && !IsSpace(x[|x| - 1])
    ensures LeadingSpaces(x + y) == LeadingSpaces(x)
  {
    var n := LeadingSpaces(x);
    assert n < |x|;
    assert (x + y)[n] == x[n];
    forall i | 0 <= i < n ensures IsSpace((x + y)[i]) {
      assert (x + y)[i] == x[i];
    }
    LeadingSpacesOfRun((x + y)[..n], (x + y)[n..]);
    assert (x + y)[..n] + (x + y)[n..] == x + y;
  }

  /** No whitespace run that starts in text ending in a non-space reaches
      past that text. */
  lemma WhitespaceRunsStayBefore(p: Pass, a: string, rest: string)
    requires p.BlankLineRun? || p.SpaceRun?
    requires a != [] ==> !IsSpace(a[|a| - 1])
    ensures forall i :: 0 <= i < |a| ==> MatchLen(p, (a + rest)[i..]) == MatchLen(p, a[i..])
  {
    forall i | 0 <= i < |a| ensures MatchLen(p, (a + rest)[i..]) == MatchLen(p, a[i..]) {
      var x := a[i..];
      DropConcat(a, rest, i);
      if p.SpaceRun? {
        assert x[|x| - 1] == a[|a| - 1];
        LeadingSpacesBeforeText(x, rest);
      } else if a[i] == '\n' {
        assert IsSpace('\n');
        DropConcat(x, rest, 1);
        assert x[1..][|x[1..]| - 1] == a[|a| - 1];
        LeadingSpacesBeforeText(x[1..], rest);
      }
    }
  }

  /** Pass 4 turns a line break and the whitespace after it into one line
      break, and treats the text on either side, each bounded by a
      non-space, on its own. */
  lemma BlankLinesBecomeOneBreak(a: string, ws: string, b: string)
    requires a != [] ==> !IsSpace(a[|a| - 1])
    requires forall i :: 0 <= i < |ws| ==> IsSpace(ws[i])
    requires b != [] ==> !IsSpace(b[0])
    ensures CollapseBlankLines(a + ("\n" + ws) + b)
         == CollapseBlankLines(a) + "\n" + CollapseBlankLines(b)
  {
    var run := "\n" + ws;
    WhitespaceRunsStayBefore(BlankLineRun, a, run + b);
    ReplaceAllConcat(BlankLineRun, a, run + b);
    Regroup("\n", ws, b);
    assert (run + b)[1..] == ws + b;
    LeadingSpacesOfRun(ws, b);
    ReplaceAllReplacesMatch(BlankLineRun, run, b);
    Regroup(a, run, b);
    Regroup(ReplaceAll(BlankLineRun, a), "\n", ReplaceAll(BlankLineRun, b));
  }

  /** Pass 5 turns a run of two or more whitespace characters into one
      space, and treats the text on either side, each bounded by a
      non-space, on its own. The run may hold line breaks: a space next to
      a break joins the two lines around it into one. */
  lemma SpaceRunBecomesOneSpace(a: string, ws: string, b: string)
    requires a != [] ==> !IsSpace(a[|a| - 1])
    requires |ws| >= 2 && forall i :: 0 <= i < |ws| ==> IsSpace(ws[i])
    requires b != [] ==> !IsSpace(b[0])
    ensures CollapseSpaces(a + ws + b) == CollapseSpaces(a) + " " + CollapseSpaces(b)
  {
    WhitespaceRunsStayBefore(SpaceRun, a, ws + b);
    ReplaceAllConcat(SpaceRun, a, ws + b);
    LeadingSpacesOfRun(ws, b);
    ReplaceAllReplacesMatch(SpaceRun, ws, b);
    Regroup(a, ws, b);
    Regroup(ReplaceAll(SpaceRun, a), " ", ReplaceAll(SpaceRun, b));
  }

  /** Two texts without two adjacent whitespace characters have none
      together unless one ends and the other starts with whitespace. */
  lemma NoDoubleSpaceConcat(x: string, y: string)
    requires NoDoubleSpace(x) && NoDoubleSpace(y)
    requires x != [] && y != [] ==> !IsSpace(x[|x| - 1]) || !IsSpace(y[0])
    ensures NoDoubleSpace(x + y)
  {
    var s := x + y;
    forall i | 0 <= i < |s| - 1 ensures !IsSpace(s[i]) || !IsSpace(s[i + 1]) {
      if i + 1 < |x| {
        assert s[i] == x[i] && s[i + 1] == x[i + 1];
      } else if i >= |x| {
        assert s[i] == y[i - |x|] && s[i + 1] == y[i + 1 - |x|];
      } else {
        assert s[i] == x[|x| - 1] && s[i + 1] == y[0];
      }
    }
  }

  /** Pass 1 keeps a tag that is not a closing one, and the text after
      it, when no other `<` follows. */
  lemma ClosingPassKeepsOtherTag(tag: string, t: string)
    requires |tag| >= 2 && tag[0] == '<' && tag[1] != '/' && '<' !in tag[1..]
    requires '<' !in t
    ensures BreakClosingBlockTags(tag + t) == tag + t
  {
    var s := tag + t;
    forall i | 0 <= i < |s| ensures MatchLen(ClosingBlockTag, s[i..]) == 0 {
      if i == 0 {
        assert s[0..][1] == tag[1];
      } else if i < |tag| {
        assert s[i..][0] == tag[1..][i - 1];
      } else {
        assert s[i..][0] == t[i - |tag|];
      }
    }
    ReplaceAllKeepsPlainText(ClosingBlockTag, s);
  }

  /** Trimming cuts a slice, so it creates neither a tag nor a double space. */
  lemma TrimKeepsShape(s: string)
    ensures !ContainsTag(s) ==> !ContainsTag(Trim(s))
    ensures NoDoubleSpace(s) ==> NoDoubleSpace(Trim(s))
  {
    var t := Trim(s);
    var a := LeadingSpaces(s);
    TrimIsMiddleSlice(s);
    if !ContainsTag(s) {
      NoTagsIffTagFree(s);
      NoTagsSlice(s, a, a + |t|);
      NoTagsIffTagFree(t);
    }
    if NoDoubleSpace(s) {
      NoDoubleSpaceSlice(s, a, a + |t|);
    }
  }

  /** Text the normaliser has nothing to do to: no `<`, no two adjacent
      whitespace characters, no whitespace at either end. */
  predicate PlainText(t: string) {
    '<' !in t && NoDoubleSpace(t)
    && (t != [] ==> !IsSpace(t[0]) && !IsSpace(t[|t| - 1]))
  }

  /** Without two adjacent whitespace characters, no line break is
      followed by whitespace. */
  lemma NoDoubleSpaceHasNoSpaceAfterBreak(s: string)
    requires NoDoubleSpace(s)
    ensures NoSpaceAfterBreak(s)
  {
    assert IsSpace('\n');
  }

  /** The five passes and the trim leave plain text as it is. */
  lemma PassesKeepPlainText(t: string)
    ensures PlainText(t) ==>
      Trim(CollapseSpaces(CollapseBlankLines(StripTags(BreakOpeningBlockTags(BreakClosingBlockTags(t)))))) == t
  {
    if PlainText(t) {
      NoDoubleSpaceHasNoSpaceAfterBreak(t);
      TrimOfTrimmed(t);
    }
  }

  /** The whole normaliser: the five passes, then `trim`. Its result holds
      no tag, no two adjacent whitespace characters, and no whitespace at
      either end; plain text comes through unchanged. */
  function Normalise(html: string): (text: string)
    ensures !ContainsTag(text)
    ensures NoDoubleSpace(text)
    ensures text != [] ==> !IsSpace(text[0]) && !IsSpace(text[|text| - 1])
    ensures PlainText(html) ==> text == html
  {
    var collapsed := CollapseSpaces(CollapseBlankLines(StripTags(BreakOpeningBlockTags(BreakClosingBlockTags(html)))));
    TrimKeepsShape(collapsed);
    PassesKeepPlainText(html);
    Trim(collapsed)
  }

  /** The normaliser on plain text, a space and a closing block tag, then
      plain text, as in `Foo </p>Bar`: pass 1 makes the tag a line break,
      pass 5 merges the space and the break into one space, and the two
      lines become one. */
  lemma ClosingTagAfterSpaceJoinsLines(a: string, name: string, b: string)
    requires PlainText(a) && PlainText(b) && a != [] && b != []
    requires BlockNameLen(name, false) == |name| > 0
    ensures Normalise(a + " " + ("</" + name + ">") + b) == a + " " + b
  {
    SpaceBeforeClosingTagBreaks(a, name, b);
    var broken := a + " \n" + b;
    assert '<' !in broken;
    NoSpaceAfterBreakAround(a, b);
    SpaceAndBreakBecomeOneSpace(a, b);
    JoinedBySpaceIsPlain(a, b);
    TrimOfTrimmed(a + " " + b);
  }

  /** Pass 1 on plain text, a space and a closing block tag, then plain
      text: the tag becomes a line break after the space. */
  lemma SpaceBeforeClosingTagBreaks(a: string, name: string, b: string)
    requires PlainText(a) && PlainText(b)
    requires BlockNameLen(name, false) == |name| > 0
    ensures BreakClosingBlockTags(a + " " + ("</" + name + ">") + b) == a + " \n" + b
  {
    var front := a + " ";
    ClosingTagBecomesBreak(front, name, b);
    assert '<' !in front;
    Regroup(a, " ", "\n");
  }

  /** Pass 5 merges a space and a line break between plain texts into one
      space. */
  lemma SpaceAndBreakBecomeOneSpace(a: string, b: string)
    requires PlainText(a) && PlainText(b)
    ensures CollapseSpaces(a + " \n" + b) == a + " " + b
  {
    assert IsSpace(' ') && IsSpace('\n');
    SpaceRunBecomesOneSpace(a, " \n", b);
  }

  // ---------------------------------------------------------------------
  // A paragraph and a division become two lines

  /** `p` and `div` are block names, with or without `br` among them. */
  lemma ParagraphAndDivAreBlockNames()
    ensures BlockNameLen("p", false) == BlockNameLen("p", true) == 1
    ensures BlockNameLen("div", false) == BlockNameLen("div", true) == 3
  {
    assert StartsWithName("div", "div");
  }

  /** Pass 1 on a paragraph and a division: each closing tag becomes a
      line break. */
  lemma ParagraphDivPass1(a: string, b: string)
    requires '<' !in a && '<' !in b
    ensures BreakClosingBlockTags("<p>" + a + "</p>" + "<div>" + b + "</div>")
         == "<p>" + a + "\n" + ("<div>" + b + "\n")
  {
    var x := "<p>" + a;
    var y := "<div>" + b;
    assert "</p>" == "</" + "p" + ">";
    assert "</div>" == "</" + "div" + ">";
    ParagraphAndDivAreBlockNames();
    RegroupTail(x + "</p>", "<div>", b, "</div>");
    ClosingTagBecomesBreak(x, "p", y + "</div>");
    ClosingTagBecomesBreak(y, "div", []);
    assert y + "</div>" + [] == y + "</div>";
    ClosingPassKeepsOtherTag("<p>", a);
    ClosingPassKeepsOtherTag("<div>", b);
    assert '<' !in [];
    assert y + "\n" + [] == y + "\n";
  }

  /** Pass 2 on the result of pass 1: each opening tag becomes a line
      break. */
  lemma ParagraphDivPass2(a: string, b: string)
    requires '<' !in a && '<' !in b
    ensures BreakOpeningBlockTags("<p>" + a + "\n" + ("<div>" + b + "\n"))
         == "\n" + (a + "\n" + "\n" + (b + "\n"))
  {
    var rest := a + "\n" + ("<div>" + b + "\n");
    RegroupTail("<p>", a, "\n", "<div>" + b + "\n");
    assert "<" + "p" + [] + ">" == "<p>" && "<" + "div" + [] + ">" == "<div>";
    assert [] + "<p>" == "<p>";
    ParagraphAndDivAreBlockNames();
    OpeningTagBecomesBreak([], "p", [], rest);
    Regroup(a + "\n", "<div>" + b, "\n");
    Regroup(a + "\n", "<div>", b);
    Regroup(a + "\n" + "<div>", b, "\n");
    assert [] + "\n" == "\n";
    assert '<' !in a + "\n";
    OpeningTagBecomesBreak(a + "\n", "div", [], b + "\n");
    assert '<' !in b + "\n";
  }

  /** Pass 4 keeps a line break that opens text starting with a
      non-space. */
  lemma LeadingBreakKept(t: string)
    requires t != [] ==> !IsSpace(t[0])
    ensures CollapseBlankLines("\n" + t) == "\n" + CollapseBlankLines(t)
  {
    assert ("\n" + t)[1..] == t;
    ReplaceAllReplacesMatch(BlankLineRun, "\n", t);
  }

  /** Pass 4 keeps a line break that closes text ending in a non-space. */
  lemma TrailingBreakKept(x: string)
    requires x != [] ==> !IsSpace(x[|x| - 1])
    ensures CollapseBlankLines(x + "\n") == CollapseBlankLines(x) + "\n"
  {
    WhitespaceRunsStayBefore(BlankLineRun, x, "\n");
    ReplaceAllConcat(BlankLineRun, x, "\n");
    assert ReplaceAll(BlankLineRun, "\n") == "\n" by {
      assert "\n"[1..] == [];
    }
  }

  /** Pass 4 on the result of passes 1 to 3: the two adjacent line breaks
      become one. */
  lemma ParagraphDivPass4(a: string, b: string)
    requires PlainText(a) && PlainText(b) && a != [] && b != []
    ensures CollapseBlankLines("\n" + (a + "\n" + "\n" + (b + "\n")))
         == "\n" + (a + "\n" + (b + "\n"))
  {
    assert IsSpace('\n');
    var t := a + "\n" + "\n" + (b + "\n");
    assert t[0] == a[0];
    LeadingBreakKept(t);
    Regroup(a, "\n", "\n");
    assert (b + "\n")[0] == b[0];
    BlankLinesBecomeOneBreak(a, "\n", b + "\n");
    TrailingBreakKept(b);
    NoDoubleSpaceHasNoSpaceAfterBreak(a);
    NoDoubleSpaceHasNoSpaceAfterBreak(b);
  }

  /** Two lines of plain text between line breaks hold no two adjacent
      whitespace characters. */
  lemma LinesBetweenBreaksAreClean(a: string, b: string)
    requires PlainText(a) && PlainText(b) && a != [] && b != []
    ensures NoDoubleSpace("\n" + (a + "\n" + (b + "\n")))
  {
    assert IsSpace('\n');
    var tail := b + "\n";
    NoDoubleSpaceConcat(b, "\n");
    var front := a + "\n";
    NoDoubleSpaceConcat(a, "\n");
    assert tail[0] == b[0];
    NoDoubleSpaceConcat(front, tail);
    assert (front + tail)[0] == a[0];
    NoDoubleSpaceConcat("\n", front + tail);
  }

  /** Pass 5 and the trim on the result of pass 4: the two lines are
      already clean, and only the outer line breaks go. */
  lemma ParagraphDivFinish(a: string, b: string)
    requires PlainText(a) && PlainText(b) && a != [] && b != []
    ensures Trim(CollapseSpaces("\n" + (a + "\n" + (b + "\n")))) == a + "\n" + b
  {
    LinesBetweenBreaksAreClean(a, b);
    var m := a + "\n" + b;
    Regroup(a + "\n", b, "\n");
    Regroup("\n", m, "\n");
    assert m[0] == a[0] && m[|m| - 1] == b[|b| - 1];
    TrimBetweenBreaks(m);
  }

  /** The normaliser on a paragraph and a division of plain text, as in
      `<p>Hello Foo</p><div>Bar</div>`: each becomes a line of its own. */
  lemma ParagraphAndDivBecomeTwoLines(a: string, b: string)
    requires PlainText(a) && PlainText(b) && a != [] && b != []
    ensures Normalise("<p>" + a + "</p>" + "<div>" + b + "</div>") == a + "\n" + b
  {
    ParagraphDivPass1(a, b);
    ParagraphDivPass2(a, b);
    assert '<' !in "\n" + (a + "\n" + "\n" + (b + "\n"));
    ParagraphDivPass4(a, b);
    ParagraphDivFinish(a, b);
  }

  // ---------------------------------------------------------------------
  // `pre`, `link` and `track` are not block tags

  /** `pre`, `link` and `track` start like the block names `p`, `li` and
      `tr`, but neither tag pass matches them: a closing tag needs `>`
      right after the name, an opening one a word boundary. */
  lemma NonBlockNamesAreNotBlockTags(name: string, rest: string)
    requires name == "pre" || name == "link" || name == "track"
    ensures OpeningTagLen("<" + name + rest) == 0
    ensures ClosingTagLen("</" + name + rest) == 0
  {
    var o, c := "<" + name + rest, "</" + name + rest;
    assert o[1..][0] == name[0] && c[2..][0] == name[0];
    if name == "pre" {
      assert o[1..][1] == 'r' && c[2..][1] == 'r';
      assert BlockNameLen(o[1..], true) == 1 && IsWordChar(o[2]);
      assert BlockNameLen(c[2..], false) == 1 && c[3] == 'r';
    } else if name == "link" {
      assert StartsWithName(o[1..], "li") && StartsWithName(c[2..], "li");
      assert BlockNameLen(o[1..], true) == 2 && IsWordChar(o[3]);
      assert BlockNameLen(c[2..], false) == 2 && c[4] == 'n';
    } else {
      assert StartsWithName(o[1..], "tr") && StartsWithName(c[2..], "tr");
      assert BlockNameLen(o[1..], true) == 2 && IsWordChar(o[3]);
      assert BlockNameLen(c[2..], false) == 2 && c[4] == 'a';
    }
  }

  /** Pass 2 keeps a tag it does not match, followed by text without `<`. */
  lemma OpeningPassKeepsOtherTag(tag: string, t: string)
    requires |tag| >= 1 && '<' !in tag[1..] && '<' !in t
    requires OpeningTagLen(tag + t) == 0
    ensures BreakOpeningBlockTags(tag + t) == tag + t
  {
    var s := tag + t;
    forall i | 0 <= i < |s| ensures MatchLen(OpeningBlockTag, s[i..]) == 0 {
      if i == 0 {
        assert s[0..] == s;
      } else if i < |tag| {
        assert s[i..][0] == tag[1..][i - 1];
      } else {
        assert s[i..][0] == t[i - |tag|];
      }
    }
    ReplaceAllKeepsPlainText(OpeningBlockTag, s);
  }

  /** Pass 1 keeps a tag that is not a closing tag between texts without
      `<`. */
  lemma ClosingPassKeepsTagAfterText(a: string, tag: string, b: string)
    requires '<' !in a && '<' !in b
    requires |tag| >= 2 && tag[0] == '<' && tag[1] != '/' && '<' !in tag[1..]
    ensures BreakClosingBlockTags(a + tag + b) == a + tag + b
  {
    Regroup(a, tag, b);
    TagPassAfterPlainText(ClosingBlockTag, a, tag + b);
    ClosingPassKeepsOtherTag(tag, b);
  }

  /** Pass 2 keeps a tag it does not match between texts without `<`. */
  lemma OpeningPassKeepsTagAfterText(a: string, tag: string, b: string)
    requires '<' !in a && '<' !in b
    requires |tag| >= 1 && '<' !in tag[1..] && OpeningTagLen(tag + b) == 0
    ensures BreakOpeningBlockTags(a + tag + b) == a + tag + b
  {
    Regroup(a, tag, b);
    TagPassAfterPlainText(OpeningBlockTag, a, tag + b);
    OpeningPassKeepsOtherTag(tag, b);
  }

  /** Passes 1 and 2 keep a `pre`, `link` or `track` tag between texts
      without `<`. */
  lemma NonBlockTagSurvivesBreakPasses(a: string, name: string, attrs: string, b: string)
    requires name == "pre" || name == "link" || name == "track"
    requires '<' !in a && '<' !in attrs && '<' !in b
    ensures var s := a + ("<" + name + attrs + ">") + b;
      BreakOpeningBlockTags(BreakClosingBlockTags(s)) == s
  {
    var tag := "<" + name + attrs + ">";
    assert tag[1] == name[0] && tag[1..] == name + attrs + ">";
    ClosingPassKeepsTagAfterText(a, tag, b);
    NonBlockNamesAreNotBlockTags(name, attrs + ">" + b);
    Regroup("<" + name, attrs + ">", b);
    Regroup("<" + name, attrs, ">");
    OpeningPassKeepsTagAfterText(a, tag, b);
  }

  /** Passes 4 and 5 and the trim leave plain text unchanged. */
  lemma LastPassesKeepPlainText(t: string)
    requires PlainText(t)
    ensures Trim(CollapseSpaces(CollapseBlankLines(t))) == t
  {
    NoDoubleSpaceHasNoSpaceAfterBreak(t);
    TrimOfTrimmed(t);
  }

  /** Two pieces of plain text joined by a space are plain text. */
  lemma JoinedBySpaceIsPlain(a: string, b: string)
    requires PlainText(a) && PlainText(b) && a != [] && b != []
    ensures PlainText(a + " " + b)
  {
    var y := a + " " + b;
    assert IsSpace(' ');
    NoDoubleSpaceConcat(a, " ");
    NoDoubleSpaceConcat(a + " ", b);
    assert y[0] == a[0] && y[|y| - 1] == b[|b| - 1];
  }

  /** Passes 1 to 3 on a `pre`, `link` or `track` tag between plain texts:
      only pass 3 matches it, and it becomes a space. */
  lemma NonBlockTagTagPasses(a: string, name: string, attrs: string, b: string)
    requires name == "pre" || name == "link" || name == "track"
    requires '<' !in a && '<' !in b
    requires '<' !in attrs && '>' !in attrs
    ensures var s := a + ("<" + name + attrs + ">") + b;
      StripTags(BreakOpeningBlockTags(BreakClosingBlockTags(s))) == a + " " + b
  {
    NonBlockTagSurvivesBreakPasses(a, name, attrs, b);
    Regroup("<", name, attrs);
    TagBecomesSpace(a, name + attrs, b);
  }

  /** The normaliser on a `pre`, `link` or `track` tag between plain text:
      pass 3 makes the tag a space, and the two texts stay on one line. */
  lemma NonBlockTagBecomesSpace(a: string, name: string, attrs: string, b: string)
    requires name == "pre" || name == "link" || name == "track"
    requires PlainText(a) && PlainText(b) && a != [] && b != []
    requires '<' !in attrs && '>' !in attrs
    ensures Normalise(a + ("<" + name + attrs + ">") + b) == a + " " + b
  {
    NonBlockTagTagPasses(a, name, attrs, b);
    JoinedBySpaceIsPlain(a, b);
    LastPassesKeepPlainText(a + " " + b);
  }

  /** A space and a line break between two pieces of plain text leave no
      line break followed by whitespace. */
  lemma NoSpaceAfterBreakAround(a: string, b: string)
    requires PlainText(a) && PlainText(b) && a != [] && b != []
    ensures NoSpaceAfterBreak(a + " \n" + b)
  {
    var s := a + " \n" + b;
    assert IsSpace('\n');
    forall i | 0 <= i < |s| - 1 && s[i] == '\n' ensures !IsSpace(s[i + 1]) {
      if i < |a| {
        assert s[i] == a[i] && s[i + 1] == a[i + 1];
      } else if i > |a| + 1 {
        assert s[i] == b[i - |a| - 2] && s[i + 1] == b[i - |a| - 1];
      }
    }
  }

  /** A line of text without tags or double whitespace has neither. */
  lemma CleanTextLineShape(s: string, k: int)
    requires NoTags(s) && NoDoubleSpace(s)
    requires 0 <= k < |Split(s, '\n')|
    ensures var line := Split(s, '\n')[k];
      !ContainsTag(line) && NoDoubleSpace(line)
  {
    var line := Split(s, '\n')[k];
    var a := SplitPieceIsSlice(s, '\n', k);
    SliceShape(s, a, a + |line|);
  }

  /** A line of text without double whitespace and without whitespace at
      either end has no whitespace at either end itself: it is bounded by
      line breaks or by the ends of the text. Unless the text is empty, the
      line is not. */
  lemma CleanTextLineTrimmed(s: string, k: int)
    requires NoDoubleSpace(s)
    requires s != [] ==> !IsSpace(s[0]) && !IsSpace(s[|s| - 1])
    requires 0 <= k < |Split(s, '\n')|
    ensures var line := Split(s, '\n')[k];
      Trim(line) == line && (s != [] ==> line != [])
  {
    var a := SplitPieceIsSlice(s, '\n', k);
    LineSliceTrimmed(s, Split(s, '\n')[k], a);
  }

  /** A slice bounded by line breaks or by the ends of text without double
      whitespace and without whitespace at either end is its own trim, and
      is non-empty unless the text is. */
  lemma LineSliceTrimmed(s: string, t: string, a: int)
    requires NoDoubleSpace(s)
    requires s != [] ==> !IsSpace(s[0]) && !IsSpace(s[|s| - 1])
    requires PieceAt(t, s, a, '\n')
    ensures Trim(t) == t && (s != [] ==> t != [])
  {
    assert IsSpace('\n');
    var e := a + |t|;
    if t != [] {
      assert t[0] == s[a] && t[|t| - 1] == s[e - 1];
    }
    TrimOfTrimmed(t);
  }

  /** A slice of text without tags or double whitespace has neither. */
  lemma SliceShape(s: string, a: int, b: int)
    requires NoTags(s) && NoDoubleSpace(s)
    requires 0 <= a <= b <= |s|
    ensures !ContainsTag(s[a..b]) && NoDoubleSpace(s[a..b])
  {
    NoTagsSlice(s, a, b);
    NoTagsIffTagFree(s[a..b]);
    NoDoubleSpaceSlice(s, a, b);
  }

  /** Every line of normalised text is free of tags and double whitespace
      and is its own trim; unless the text is empty, no line is empty. */
  lemma NormalisedLinesAreClean(html: string)
    ensures forall k :: 0 <= k < |Split(Normalise(html), '\n')| ==>
      var line := Split(Normalise(html), '\n')[k];
      !ContainsTag(line) && NoDoubleSpace(line) && Trim(line) == line
      && (Normalise(html) != [] ==> line != [])
  {
    var text := Normalise(html);
    NoTagsIffTagFree(text);
    forall k | 0 <= k < |Split(text, '\n')|
      ensures var line := Split(text, '\n')[k];
        !ContainsTag(line) && NoDoubleSpace(line) && Trim(line) == line && (text != [] ==> line != [])
    {
      CleanTextLineShape(text, k);
      CleanTextLineTrimmed(text, k);
    }
  }
}
