/** The handful of Python `str` operations the mail tools rely on:
    `isspace`, `strip`, `split()`, `split(sep)`, `in`, `startswith`,
    `lower` and `replace`, each with a contract that says what it computes. */
module Text {

  /** Python's `str.isspace()` for one character: the ASCII whitespace and
      separator characters plus the Unicode spaces and line separators. */
  predicate IsSpace(c: char)
  {
    c == ' ' || ('\t' <= c <= '\r') || ('\U{1c}' <= c <= '\U{1f}') ||
    c == '\U{85}' || c == '\U{a0}' || c == '\U{1680}' ||
    ('\U{2000}' <= c <= '\U{200a}') || c == '\U{2028}' || c == '\U{2029}' ||
    c == '\U{202f}' || c == '\U{205f}' || c == '\U{3000}'
  }

  ghost predicate AllSpace(s: string)
  {
    forall i :: 0 <= i < |s| ==> IsSpace(s[i])
  }

  ghost predicate NoSpace(s: string)
  {
    forall i :: 0 <= i < |s| ==> !IsSpace(s[i])
  }

  /** A non-empty run of non-whitespace characters: one item of `split()`. */
  ghost predicate IsWord(w: string)
  {
    w != [] && NoSpace(w)
  }

  /** Neither end of `s` is whitespace: what `strip()` returns. */
  ghost predicate IsTrimmed(s: string)
  {
    s == [] || (!IsSpace(s[0]) && !IsSpace(s[|s| - 1]))
  }

  predicate StartsWith(s: string, prefix: string)
  {
    |prefix| <= |s| && s[..|prefix|] == prefix
  }

  /** `part` is a substring of `s`: Python's `part in s`. */
  ghost predicate Occurs(part: string, s: string)
  {
    exists i :: 0 <= i <= |s| && StartsWith(s[i..], part)
  }

  // ---------------------------------------------------------------- strip

  /** Python's `lstrip()`: drop the leading whitespace. */
  function TrimStart(s: string): (r: string)
    ensures |r| <= |s| && r == s[|s| - |r|..]
    ensures AllSpace(s[..|s| - |r|])
    ensures r == [] || !IsSpace(r[0])
  {
    if s != [] && IsSpace(s[0]) then
      var r := TrimStart(s[1..]);
      assert s[..|s| - |r|] == [s[0]] + s[1..][..|s| - 1 - |r|];
      r
    else
      s
  }

  /** Python's `rstrip()`: drop the trailing whitespace. */
  function TrimEnd(s: string): (r: string)
    ensures |r| <= |s| && r == s[..|r|]
    ensures AllSpace(s[|r|..])
    ensures r == [] || !IsSpace(r[|r| - 1])
  {
    if s != [] && IsSpace(s[|s| - 1]) then
      var r := TrimEnd(s[..|s| - 1]);
      assert s[|r|..] == s[..|s| - 1][|r|..] + [s[|s| - 1]];
      r
    else
      s
  }

  /** Python's `strip()`: `rstrip()` after `lstrip()`. */
  function Strip(s: string): (r: string)
    ensures IsTrimmed(r)
  {
    var t := TrimStart(s);
    var r := TrimEnd(t);
    assert r != [] ==> r[0] == t[0];
    r
  }

  lemma {:induction false} TrimStartSkipsSpace(pad: string, s: string)
    requires AllSpace(pad)
    ensures TrimStart(pad + s) == TrimStart(s)
  {
    if pad != [] {
      assert (pad + s)[0] == pad[0] && IsSpace(pad[0]);
      assert (pad + s)[1..] == pad[1..] + s;
      var back := pad[1..];
      assert AllSpace(back) by {
        forall i | 0 <= i < |back| ensures IsSpace(back[i]) { assert back[i] == pad[i + 1]; }
      }
      TrimStartSkipsSpace(pad[1..], s);
    } else {
      assert pad + s == s;
    }
  }

  lemma {:induction false} TrimEndSkipsSpace(s: string, pad: string)
    requires AllSpace(pad)
    ensures TrimEnd(s + pad) == TrimEnd(s)
  {
    if pad != [] {
      var n := |pad|;
      assert (s + pad)[|s + pad| - 1] == pad[n - 1] && IsSpace(pad[n - 1]);
      assert (s + pad)[..|s + pad| - 1] == s + pad[..n - 1];
      var front := pad[..n - 1];
      assert AllSpace(front) by {
        forall i | 0 <= i < |front| ensures IsSpace(front[i]) { assert front[i] == pad[i]; }
      }
      TrimEndSkipsSpace(s, pad[..n - 1]);
    } else {
      assert s + pad == s;
    }
  }

  /** Stripping a trimmed value padded on both sides by whitespace gives the
      value back; with empty padding this is the idempotence of `strip()`. */
  lemma {:induction false} StripPadded(before: string, s: string, after: string)
    requires AllSpace(before) && AllSpace(after) && IsTrimmed(s)
    ensures Strip(before + s + after) == s
  {
    assert before + s + after == before + (s + after);
    assert TrimStart(before + (s + after)) == TrimStart(s + after) by {
      TrimStartSkipsSpace(before, s + after);
    }
    if s == [] {
      assert s + after == after + [];
      assert TrimStart(after + []) == [] by { TrimStartSkipsSpace(after, []); }
    } else {
      assert TrimStart(s + after) == s + after by { assert (s + after)[0] == s[0]; }
      assert TrimEnd(s + after) == TrimEnd(s) by { TrimEndSkipsSpace(s, after); }
      assert TrimEnd(s) == s by { assert s[|s| - 1] == s[|s| - 1]; }
    }
  }

  /** `strip()` is idempotent: a trimmed string is its own strip. */
  lemma {:induction false} StripTrimmed(s: string)
    requires IsTrimmed(s)
    ensures Strip(s) == s
  {
    assert [] + s + [] == s;
    StripPadded([], s, []);
  }

  lemma {:induction false} StripLeading(pad: string, s: string)
    requires AllSpace(pad) && IsTrimmed(s)
    ensures Strip(pad + s) == s
  {
    assert pad + s + [] == pad + s;
    StripPadded(pad, s, []);
  }

  // ----------------------------------------------------------- split(sep)

  /** The parts joined with `sep` between them: the inverse of splitting. */
  function Join(parts: seq<string>, sep: string): string
    requires |parts| >= 1
  {
    if |parts| == 1 then parts[0] else parts[0] + sep + Join(parts[1..], sep)
  }

  /** Python's `s.split(sep)` for a one-character separator: at least one
      part, no part holds the separator, and joining the parts with the
      separator restores `s` (so empty parts are kept). */
  function SplitOn(s: string, sep: char): (parts: seq<string>)
    ensures |parts| >= 1
    ensures forall i :: 0 <= i < |parts| ==> sep !in parts[i]
    ensures Join(parts, [sep]) == s
  {
    if s == [] then [""]
    else
      var rest := SplitOn(s[1..], sep);
      if s[0] == sep then
        assert ([""] + rest)[1..] == rest;
        [""] + rest
      else
        var parts := [[s[0]] + rest[0]] + rest[1..];
        assert |rest| > 1 ==> parts[1..] == rest[1..];
        assert Join(parts, [sep]) == [s[0]] + Join(rest, [sep]);
        parts
  }

  lemma {:induction false} SplitOnLeading(p: string, sep: char, s: string)
    requires sep !in p
    ensures SplitOn(p + [sep] + s, sep) == [p] + SplitOn(s, sep)
  {
    if p == [] {
      assert (p + [sep] + s)[1..] == s;
    } else {
      assert (p + [sep] + s)[1..] == p[1..] + [sep] + s;
      SplitOnLeading(p[1..], sep, s);
      assert [p[0]] + p[1..] == p;
    }
  }

  lemma {:induction false} SplitOnWithout(p: string, sep: char)
    requires sep !in p
    ensures SplitOn(p, sep) == [p]
  {
    if p != [] {
      SplitOnWithout(p[1..], sep);
      assert [p[0]] + p[1..] == p;
    }
  }

  // ------------------------------------------------------------- split()

  /** The longest leading run of non-whitespace characters. */
  function TakeWord(s: string): (w: string)
    ensures |w| <= |s| && w == s[..|w|] && NoSpace(w)
    ensures |w| < |s| ==> IsSpace(s[|w|])
  {
    if s != [] && !IsSpace(s[0]) then [s[0]] + TakeWord(s[1..]) else []
  }

  lemma {:induction false} TakeWordNonEmpty(t: string)
    requires t != [] && !IsSpace(t[0])
    ensures TakeWord(t) != []
  {
  }

  /** Python's `s.split()` with no argument: the maximal runs of
      non-whitespace characters, in order; none is empty. */
  function SplitWhitespace(s: string): (words: seq<string>)
    ensures forall i :: 0 <= i < |words| ==> IsWord(words[i])
    decreases |s|
  {
    var t := TrimStart(s);
    if t == [] then []
    else
      var w := TakeWord(t);
      TakeWordNonEmpty(t);
      var rest := t[|w|..];
      assert |rest| < |s|;
      var words := SplitWhitespace(rest);
      assert forall i :: 0 < i <= |words| ==> ([w] + words)[i] == words[i - 1];
      [w] + words
  }

  /** The non-whitespace characters of `s`, in order. */
  function NonSpace(s: string): string
  {
    if s == [] then [] else (if IsSpace(s[0]) then [] else [s[0]]) + NonSpace(s[1..])
  }

  function Concat(words: seq<string>): string
  {
    if words == [] then [] else words[0] + Concat(words[1..])
  }

  lemma {:induction false} NonSpaceAppend(a: string, b: string)
    ensures NonSpace(a + b) == NonSpace(a) + NonSpace(b)
  {
    if a != [] {
      assert (a + b)[0] == a[0];
      assert (a + b)[1..] == a[1..] + b;
      NonSpaceAppend(a[1..], b);
    } else {
      assert a + b == b;
    }
  }

  lemma {:induction false} NonSpaceOfSpace(s: string)
    requires AllSpace(s)
    ensures NonSpace(s) == []
  {
    if s != [] { NonSpaceOfSpace(s[1..]); }
  }

  lemma {:induction false} NonSpaceOfWord(s: string)
    requires NoSpace(s)
    ensures NonSpace(s) == s
  {
    if s != [] { NonSpaceOfWord(s[1..]); }
  }

  lemma {:induction false} TrimStartKeepsText(s: string)
    ensures NonSpace(TrimStart(s)) == NonSpace(s)
  {
    var t := TrimStart(s);
    var pad := s[..|s| - |t|];
    assert s == pad + t;
    NonSpaceAppend(pad, t);
    NonSpaceOfSpace(pad);
  }

  lemma {:induction false} TrimEndKeepsText(s: string)
    ensures NonSpace(TrimEnd(s)) == NonSpace(s)
  {
    var r := TrimEnd(s);
    assert s == r + s[|r|..];
    NonSpaceAppend(r, s[|r|..]);
    NonSpaceOfSpace(s[|r|..]);
  }

  /** `strip()` removes whitespace only. */
  lemma {:induction false} StripKeepsText(s: string)
    ensures NonSpace(Strip(s)) == NonSpace(s)
  {
    TrimStartKeepsText(s);
    TrimEndKeepsText(TrimStart(s));
  }

  /** `split()` loses only whitespace: the words, put back together, are
      exactly the non-whitespace characters of the input. */
  lemma {:induction false} SplitWhitespaceKeepsText(s: string)
    ensures Concat(SplitWhitespace(s)) == NonSpace(s)
    decreases |s|
  {
    var t := TrimStart(s);
    var k := |s| - |t|;
    assert NonSpace(s) == NonSpace(t) by {
      assert s == s[..k] + t;
      NonSpaceAppend(s[..k], t);
      NonSpaceOfSpace(s[..k]);
    }
    if t != [] {
      var w := TakeWord(t);
      var rest := t[|w|..];
      assert NonSpace(t) == w + NonSpace(rest) by {
        assert t == w + rest;
        NonSpaceAppend(w, rest);
        NonSpaceOfWord(w);
      }
      SplitWhitespaceKeepsText(rest);
      assert SplitWhitespace(s) == [w] + SplitWhitespace(rest);
      assert Concat([w] + SplitWhitespace(rest)) == w + Concat(SplitWhitespace(rest)) by {
        assert ([w] + SplitWhitespace(rest))[1..] == SplitWhitespace(rest);
      }
    } else {
      assert SplitWhitespace(s) == [];
    }
  }

  /** Words separated by single spaces: what a writer puts in a header
      such as `References:`. */
  function JoinWords(words: seq<string>): string
  {
    if words == [] then "" else Join(words, " ")
  }

  lemma {:induction false} TakeWordOf(w: string, rest: string)
    requires NoSpace(w)
    requires rest == [] || IsSpace(rest[0])
    ensures TakeWord(w + rest) == w
  {
    if w != [] {
      assert (w + rest)[1..] == w[1..] + rest;
      TakeWordOf(w[1..], rest);
      assert [w[0]] + w[1..] == w;
    }
  }

  lemma {:induction false} SplitWhitespaceWord(s: string)
    requires s != [] && !IsSpace(s[0])
    ensures SplitWhitespace(s) == [TakeWord(s)] + SplitWhitespace(s[|TakeWord(s)|..])
  {
  }

  lemma {:induction false} SplitWhitespaceSpace(s: string)
    requires s != [] && IsSpace(s[0])
    ensures SplitWhitespace(s) == SplitWhitespace(s[1..])
  {
    assert TrimStart(s) == TrimStart(s[1..]);
  }

  lemma {:induction false} SplitWhitespaceWordFirst(w: string, rest: string)
    requires IsWord(w)
    requires rest == [] || IsSpace(rest[0])
    ensures SplitWhitespace(w + rest) == [w] + SplitWhitespace(rest)
  {
    var s := w + rest;
    assert s[0] == w[0];
    TakeWordOf(w, rest);
    assert s[|w|..] == rest;
    SplitWhitespaceWord(s);
  }

  lemma {:induction false} SplitJoinWordsStep(words: seq<string>)
    requires |words| > 1 && IsWord(words[0])
    ensures SplitWhitespace(JoinWords(words)) == [words[0]] + SplitWhitespace(JoinWords(words[1..]))
  {
    var tail := JoinWords(words[1..]);
    var spaced := " " + tail;
    assert JoinWords(words) == words[0] + spaced;
    assert SplitWhitespace(words[0] + spaced) == [words[0]] + SplitWhitespace(spaced) by {
      SplitWhitespaceWordFirst(words[0], spaced);
    }
    assert SplitWhitespace(spaced) == SplitWhitespace(tail) by {
      assert spaced[1..] == tail;
      SplitWhitespaceSpace(spaced);
    }
  }

  lemma {:induction false} SplitWhitespaceOfWord(w: string)
    requires IsWord(w)
    ensures SplitWhitespace(w) == [w]
  {
    assert TakeWord(w) == w by {
      assert w + [] == w;
      TakeWordOf(w, []);
    }
    assert TrimStart(w) == w;
    assert w[|w|..] == [];
    assert SplitWhitespace([]) == [];
  }

  lemma {:induction false} SplitJoinOneWord(words: seq<string>)
    requires |words| == 1 && IsWord(words[0])
    ensures SplitWhitespace(JoinWords(words)) == words
  {
    assert JoinWords(words) == words[0];
    SplitWhitespaceOfWord(words[0]);
  }

  lemma {:induction false} ConsBack(whole: seq<string>, tail: seq<string>, words: seq<string>)
    requires |words| > 0 && tail == words[1..] && whole == [words[0]] + tail
    ensures whole == words
  {
  }

  lemma {:induction false} SplitWhitespaceEmpty()
    ensures SplitWhitespace(JoinWords([])) == []
  {
    assert TrimStart([]) == [];
  }

  /** `split()` undoes joining non-empty, whitespace-free words with spaces. */
  lemma {:induction false} SplitJoinWords(words: seq<string>)
    requires forall i :: 0 <= i < |words| ==> IsWord(words[i])
    ensures SplitWhitespace(JoinWords(words)) == words
  {
    if words == [] {
      SplitWhitespaceEmpty();
    } else if |words| == 1 {
      SplitJoinOneWord(words);
    } else {
      var rest := words[1..];
      assert forall i | 0 <= i < |rest| :: IsWord(rest[i]) by {
        assert forall i | 0 <= i < |rest| :: rest[i] == words[i + 1];
      }
      SplitJoinWords(rest);
      SplitJoinWordsStep(words);
      ConsBack(SplitWhitespace(JoinWords(words)), SplitWhitespace(JoinWords(rest)), words);
    }
  }

  /** A space-joined list of words neither starts nor ends with whitespace. */
  lemma {:induction false} JoinWordsTrimmed(words: seq<string>)
    requires forall i :: 0 <= i < |words| ==> IsWord(words[i])
    ensures IsTrimmed(JoinWords(words))
    ensures words != [] ==> JoinWords(words) != []
  {
    if |words| > 1 {
      JoinWordsTrimmed(words[1..]);
      var tail := JoinWords(words[1..]);
      assert JoinWords(words) == words[0] + " " + tail;
    }
  }

  // --------------------------------------------------------- in, lower

  lemma {:induction false} OccursStep(part: string, s: string)
    ensures Occurs(part, s) <==> StartsWith(s, part) || (s != [] && Occurs(part, s[1..]))
  {
    if StartsWith(s, part) {
      assert s[0..] == s;
    }
    if s != [] && Occurs(part, s[1..]) {
      var i :| 0 <= i <= |s| - 1 && StartsWith(s[1..][i..], part);
      assert s[1..][i..] == s[i + 1..];
    }
    if Occurs(part, s) && !StartsWith(s, part) {
      var i :| 0 <= i <= |s| && StartsWith(s[i..], part);
      assert i != 0;
      assert s[1..][i - 1..] == s[i..];
    }
  }

  /** Python's `part in s`. */
  function Contains(s: string, part: string): (r: bool)
    ensures r <==> Occurs(part, s)
  {
    OccursStep(part, s);
    StartsWith(s, part) || (s != [] && Contains(s[1..], part))
  }

  /** A piece holding a character that `s` lacks does not occur in `s`. */
  lemma {:induction false} MissingCharNotOccurs(part: string, s: string, k: nat)
    requires k < |part| && part[k] !in s
    ensures !Occurs(part, s)
  {
    forall i | 0 <= i <= |s|
      ensures !StartsWith(s[i..], part)
    {
      if |part| <= |s[i..]| {
        assert s[i..][..|part|][k] == s[i + k];
        assert s[i + k] in s;
      }
    }
  }

  /** Python's `lower()` on the ASCII letters. */
  function LowerChar(c: char): char
  {
    if 'A' <= c <= 'Z' then (c as int - 'A' as int + 'a' as int) as char else c
  }

  function Lower(s: string): (r: string)
    ensures |r| == |s|
    ensures forall i :: 0 <= i < |s| ==> r[i] == LowerChar(s[i])
  {
    if s == [] then [] else [LowerChar(s[0])] + Lower(s[1..])
  }

  // ------------------------------------------------------------ replace

  /** Python's `s.replace(target, replacement)`: every non-overlapping
      occurrence of `target`, scanning left to right, is replaced. */
  function Replace(s: string, target: string, replacement: string): string
    requires target != []
    decreases |s|
  {
    if |s| < |target| then s
    else if s[..|target|] == target then replacement + Replace(s[|target|..], target, replacement)
    else [s[0]] + Replace(s[1..], target, replacement)
  }

  /** Text that cannot start an occurrence of `target` is copied unchanged. */
  lemma {:induction false} ReplaceCopies(p: string, rest: string, target: string, replacement: string)
    requires target != [] && target[0] !in p
    ensures Replace(p + rest, target, replacement) == p + Replace(rest, target, replacement)
  {
    if p != [] {
      var s := p + rest;
      assert s[0] == p[0] && p[0] != target[0];
      if |s| >= |target| {
        assert s[..|target|] != target by { assert s[..|target|][0] == p[0]; }
        assert s[1..] == p[1..] + rest;
        ReplaceCopies(p[1..], rest, target, replacement);
        assert [p[0]] + (p[1..] + Replace(rest, target, replacement)) == p + Replace(rest, target, replacement);
      } else {
        assert Replace(rest, target, replacement) == rest;
      }
    } else {
      assert p + rest == rest;
    }
  }

  /** Replacing a placeholder in a template made of placeholder-free pieces
      substitutes every placeholder and changes nothing else. */
  lemma {:induction false} ReplaceJoin(pieces: seq<string>, target: string, replacement: string)
    requires |pieces| >= 1 && target != []
    requires forall i :: 0 <= i < |pieces| ==> target[0] !in pieces[i]
    ensures Replace(Join(pieces, target), target, replacement) == Join(pieces, replacement)
  {
    var p := pieces[0];
    if |pieces| == 1 {
      ReplaceCopies(p, [], target, replacement);
      assert p + [] == p;
      assert Replace([], target, replacement) == [];
    } else {
      var tail := Join(pieces[1..], target);
      assert Join(pieces, target) == p + (target + tail);
      ReplaceCopies(p, target + tail, target, replacement);
      assert (target + tail)[..|target|] == target;
      assert (target + tail)[|target|..] == tail;
      ReplaceJoin(pieces[1..], target, replacement);
    }
  }
}
