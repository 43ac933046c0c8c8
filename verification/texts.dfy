/** The string functions of Go's library that the model needs, and what they compute. */
module Texts {

  lemma {:induction false} Cancel(prefix: string, s: string, t: string)
    ensures prefix + s == prefix + t <==> s == t
  {
    assert (prefix + s)[|prefix|..] == s && (prefix + t)[|prefix|..] == t;
  }

  /** The text before the first separator is determined by the whole. */
  lemma {:induction false} SplitAt(sep: char, s: string, t: string, s': string, t': string)
    requires sep !in s && sep !in s' && s + [sep] + t == s' + [sep] + t'
    ensures s == s' && t == t'
  {
    var whole := s + [sep] + t;
    assert whole[|s|] == sep && whole[|s'|] == sep;
    assert forall k :: 0 <= k < |s| ==> whole[k] == s[k] && s[k] in s;
    assert forall k :: 0 <= k < |s'| ==> whole[k] == s'[k] && s'[k] in s';
    assert s == whole[..|s|] == s';
    assert t == whole[|s| + 1..] == t';
  }

  // ----- strings.Contains -----

  predicate Contains(s: string, sub: string) {
    |sub| <= |s| && (s[..|sub|] == sub || (s != [] && Contains(s[1..], sub)))
  }

  ghost predicate SliceAt(s: string, sub: string, i: int) {
    0 <= i && i + |sub| <= |s| && s[i..i + |sub|] == sub
  }

  /** A string contains exactly its slices. */
  lemma {:induction false} ContainsIff(s: string, sub: string)
    ensures Contains(s, sub) <==> exists i :: SliceAt(s, sub, i)
  {
    if s[..if |sub| <= |s| then |sub| else 0] == sub {
      assert SliceAt(s, sub, 0);
    } else if |sub| <= |s| && s != [] {
      ContainsIff(s[1..], sub);
      if i :| SliceAt(s[1..], sub, i) {
        assert s[1..][i..i + |sub|] == s[i + 1..i + 1 + |sub|];
        assert SliceAt(s, sub, i + 1);
      }
      if i :| SliceAt(s, sub, i) {
        assert s[1..][i - 1..i - 1 + |sub|] == s[i..i + |sub|];
        assert SliceAt(s[1..], sub, i - 1);
      }
    }
  }

  // ----- the first field of strings.Split, and strings.LastIndex -----

  function Before(s: string, c: char): string {
    if s == [] || s[0] == c then [] else [s[0]] + Before(s[1..], c)
  }

  /** The text before the first separator, or all of it. */
  lemma {:induction false} BeforeIs(s: string, c: char, tail: string)
    requires c !in s && (tail == [] || tail[0] == c)
    ensures Before(s + tail, c) == s
  {
    if s == [] {
      assert s + tail == tail;
    } else {
      assert (s + tail)[0] == s[0] && (s + tail)[1..] == s[1..] + tail;
      BeforeIs(s[1..], c, tail);
    }
  }

  function BeforeLast(s: string, c: char): string {
    if c !in s then s else if s[|s| - 1] == c then s[..|s| - 1] else BeforeLast(s[..|s| - 1], c)
  }

  /** The text before the last separator. */
  lemma {:induction false} BeforeLastIs(s: string, c: char, tail: string)
    requires c !in tail
    ensures BeforeLast(s + [c] + tail, c) == s
  {
    var whole := s + [c] + tail;
    assert whole[|s|] == c;
    if tail == [] {
      assert whole[..|whole| - 1] == s;
    } else {
      assert whole[|whole| - 1] == tail[|tail| - 1];
      assert whole[..|whole| - 1] == s + [c] + tail[..|tail| - 1];
      BeforeLastIs(s, c, tail[..|tail| - 1]);
    }
  }

  // ----- strings.TrimSpace on ASCII -----

  predicate IsSpace(c: char) {
    c == ' ' || '\t' <= c <= '\r'
  }

  function TrimSpace(s: string): string {
    if s == [] then []
    else if IsSpace(s[0]) then TrimSpace(s[1..])
    else if IsSpace(s[|s| - 1]) then TrimSpace(s[..|s| - 1])
    else s
  }

  /** Space, tab, newline, vertical tab, form feed or carriage return. */
  predicate IsBlank(c: char) {
    c as int in {32, 9, 10, 11, 12, 13}
  }

  predicate Blank(s: string) {
    forall i :: 0 <= i < |s| ==> IsBlank(s[i])
  }

  /** Neither begins nor ends with one of those. */
  predicate Trimmed(s: string) {
    s != [] ==> !IsBlank(s[0]) && !IsBlank(s[|s| - 1])
  }

  /** The text between the outer blanks. */
  lemma {:induction false} TrimSpaceIs(left: string, s: string, right: string)
    requires Blank(left) && Trimmed(s) && Blank(right)
    ensures TrimSpace(left + s + right) == s
    decreases |left| + |right|
  {
    var whole := left + s + right;
    if left != [] {
      assert whole[0] == left[0] && whole[1..] == left[1..] + s + right;
      TrimSpaceIs(left[1..], s, right);
    } else if s == [] {
      assert whole == right;
      if right != [] {
        assert [] + s + right[1..] == right[1..];
        TrimSpaceIs([], s, right[1..]);
      }
    } else {
      assert whole[0] == s[0];
      if right != [] {
        assert whole[|whole| - 1] == right[|right| - 1];
        assert whole[..|whole| - 1] == left + s + right[..|right| - 1];
        TrimSpaceIs(left, s, right[..|right| - 1]);
      } else {
        assert whole == s;
      }
    }
  }
}
