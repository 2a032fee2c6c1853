/** The Python `str` operations that fns.py relies on, over `string`
    (a sequence of code points): `split()`, `split(sep)`, `' '.join`,
    `strip()`, `count`, `index`, `in` and `replace`. */
module PyStr {

  datatype Option<+T> = None | Some(value: T)

  /** The characters for which Python's `str.isspace()` holds; `split()`
      and `strip()` without arguments cut at exactly these. */
  const Whitespace: set<char> := {
    '\U{9}', '\U{A}', '\U{B}', '\U{C}', '\U{D}', '\U{1C}', '\U{1D}', '\U{1E}',
    '\U{1F}', ' ', '\U{85}', '\U{A0}', '\U{1680}', '\U{2000}', '\U{2001}',
    '\U{2002}', '\U{2003}', '\U{2004}', '\U{2005}', '\U{2006}', '\U{2007}',
    '\U{2008}', '\U{2009}', '\U{200A}', '\U{2028}', '\U{2029}', '\U{202F}',
    '\U{205F}', '\U{3000}'}

  /** Python's `c.isspace()`. */
  predicate IsSpace(c: char)
  {
    c in Whitespace
  }

  /** A token that `split()` can produce: non-empty and free of whitespace. */
  predicate IsWord(w: string)
  {
    w != [] && forall i :: 0 <= i < |w| ==> !IsSpace(w[i])
  }

  /** Length of the run of non-space characters that `s` starts with. */
  function WordLen(s: string): (k: nat)
    ensures k <= |s|
    ensures forall i :: 0 <= i < k ==> !IsSpace(s[i])
    ensures k < |s| ==> IsSpace(s[k])
  {
    if s == [] || IsSpace(s[0]) then 0 else 1 + WordLen(s[1..])
  }

  /** Python `s.split()`: the maximal runs of non-space characters, in order. */
  function SplitWhitespace(s: string): (words: seq<string>)
    ensures forall i :: 0 <= i < |words| ==> IsWord(words[i])
    decreases |s|
  {
    if s == [] then []
    else if IsSpace(s[0]) then SplitWhitespace(s[1..])
    else
      var k := WordLen(s);
      [s[..k]] + SplitWhitespace(s[k..])
  }

  /** Python `sep.join(parts)`. */
  function Join(sep: string, parts: seq<string>): (r: string)
  {
    if parts == [] then ""
    else if |parts| == 1 then parts[0]
    else parts[0] + sep + Join(sep, parts[1..])
  }

  /** Python `s.count(c)` for a one-character argument. */
  function Count(s: string, c: char): (n: nat)
  {
    if s == [] then 0 else (if s[0] == c then 1 else 0) + Count(s[1..], c)
  }

  /** Python `s.split(sep)` for a one-character separator: the text
      between consecutive separators, one more piece than separators. */
  function SplitAt(s: string, sep: char): (pieces: seq<string>)
    ensures |pieces| == Count(s, sep) + 1
    ensures forall i :: 0 <= i < |pieces| ==> sep !in pieces[i]
    decreases |s|
  {
    if s == [] then [""]
    else
      var rest := SplitAt(s[1..], sep);
      if s[0] == sep then [""] + rest
      else [[s[0]] + rest[0]] + rest[1..]
  }

  /** How many whitespace characters `s` starts with. */
  function LeadingSpaces(s: string): (k: nat)
    ensures k <= |s|
    ensures forall i :: 0 <= i < k ==> IsSpace(s[i])
    ensures k < |s| ==> !IsSpace(s[k])
  {
    if s != [] && IsSpace(s[0]) then 1 + LeadingSpaces(s[1..]) else 0
  }

  /** Python `s.strip()`: `s` without the whitespace at either end. */
  function Strip(s: string): (r: string)
    decreases |s|
  {
    if s == [] then s
    else if IsSpace(s[0]) then Strip(s[1..])
    else if IsSpace(s[|s| - 1]) then Strip(s[..|s| - 1])
    else s
  }

  /** Python `s.index(c)`, with `None` where Python raises `ValueError`. */
  function IndexOf(s: string, c: char): (r: Option<nat>)
    ensures r.None? <==> c !in s
    ensures r.Some? ==> r.value < |s| && s[r.value] == c && c !in s[..r.value]
  {
    if s == [] then None
    else if s[0] == c then Some(0)
    else match IndexOf(s[1..], c)
      case None => None
      case Some(k) => Some(k + 1)
  }

  /** Python `q in s` for strings: `q` occurs in `s` as one block. */
  predicate Contains(s: string, q: string)
    decreases |s|
  {
    |q| <= |s| && (s[..|q|] == q || (s != [] && Contains(s[1..], q)))
  }

  /** Python `s.replace(pat, repl)` for a non-empty `pat`: the occurrences
      of `pat` are found from left to right, without overlap, and each
      one is replaced by `repl`. */
  function Replace(s: string, pat: string, repl: string): (r: string)
    requires pat != []
    ensures !Contains(s, pat) ==> r == s
    decreases |s|
  {
    if |s| < |pat| then s
    else if s[..|pat|] == pat then repl + Replace(s[|pat|..], pat, repl)
    else [s[0]] + Replace(s[1..], pat, repl)
  }

  // ---------------------------------------------------------------- lemmas

  /** `s.split(sep)` loses nothing: joining the pieces with `sep` gives `s` back. */
  lemma {:induction false} JoinSplitAt(s: string, sep: char)
    ensures Join([sep], SplitAt(s, sep)) == s
    decreases |s|
  {
    if s != [] {
      var rest := SplitAt(s[1..], sep);
      JoinSplitAt(s[1..], sep);
      if s[0] == sep {
        assert SplitAt(s, sep) == [""] + rest;
        assert ([""] + rest)[1..] == rest;
      } else {
        var pieces := SplitAt(s, sep);
        assert pieces[1..] == rest[1..];
        if |rest| > 1 {
          assert rest == [rest[0]] + rest[1..];
          assert Join([sep], rest) == rest[0] + [sep] + Join([sep], rest[1..]);
        }
      }
    }
  }

  /** `t` sits in `s` right after the first `i` characters, and only
      whitespace follows it. */
  predicate IsStripBlock(s: string, i: nat, t: string)
  {
    i + |t| <= |s| && s[i..i + |t|] == t && forall k :: i + |t| <= k < |s| ==> IsSpace(s[k])
  }

  /** What `strip()` keeps is the block of `s` that follows its leading
      whitespace, and only whitespace follows that block. */
  lemma {:induction false} StripIsInfix(s: string)
    ensures IsStripBlock(s, LeadingSpaces(s), Strip(s))
    decreases |s|
  {
    if s == [] {
    } else if IsSpace(s[0]) {
      StripIsInfix(s[1..]);
      assert [s[0]] + s[1..] == s;
      BlockAfterOneMore(s[0], s[1..], LeadingSpaces(s[1..]), Strip(s));
    } else if IsSpace(s[|s| - 1]) {
      var s' := s[..|s| - 1];
      StripIsInfix(s');
      assert s'[0] == s[0];
      assert s' + [s[|s| - 1]] == s;
      BlockBeforeOneMore(s', s[|s| - 1], Strip(s));
    }
  }

  /** One more character in front moves the block one place on. */
  lemma BlockAfterOneMore(c: char, s: string, i: nat, t: string)
    requires IsStripBlock(s, i, t)
    ensures IsStripBlock([c] + s, i + 1, t)
  {
    var s' := [c] + s;
    assert s'[i + 1..i + 1 + |t|] == s[i..i + |t|];
    forall k | i + 1 + |t| <= k < |s'|
      ensures IsSpace(s'[k])
    {
      assert s'[k] == s[k - 1];
    }
  }

  /** One more whitespace character behind a block at the start keeps it
      the block. */
  lemma BlockBeforeOneMore(s: string, c: char, t: string)
    requires IsStripBlock(s, 0, t) && IsSpace(c)
    ensures IsStripBlock(s + [c], 0, t)
  {
    var s' := s + [c];
    assert s'[..|t|] == s[..|t|];
    forall k | |t| <= k < |s'|
      ensures IsSpace(s'[k])
    {
      if k < |s| {
        assert s'[k] == s[k];
      }
    }
  }

  /** What `strip()` keeps begins and ends with a non-space. */
  lemma {:induction false} StripEnds(s: string)
    ensures var t := Strip(s);
            t == [] || (!IsSpace(t[0]) && !IsSpace(t[|t| - 1]))
    decreases |s|
  {
    if s == [] {
    } else if IsSpace(s[0]) {
      StripEnds(s[1..]);
    } else if IsSpace(s[|s| - 1]) {
      StripEnds(s[..|s| - 1]);
    }
  }

  /** A one-character pattern occurs exactly when that character does. */
  lemma {:induction false} ContainsChar(s: string, c: char)
    ensures Contains(s, [c]) <==> c in s
    decreases |s|
  {
    if s != [] {
      ContainsChar(s[1..], c);
      assert s == [s[0]] + s[1..];
    }
  }

  /** An occurrence in a suffix is an occurrence in the whole. */
  lemma {:induction false} ContainsInSuffix(s: string, k: nat, q: string)
    requires k <= |s|
    ensures Contains(s[k..], q) ==> Contains(s, q)
    decreases k
  {
    if k > 0 {
      ContainsInSuffix(s[1..], k - 1, q);
      assert s[1..][k - 1..] == s[k..];
    }
  }

  /** No occurrence of `q` can start inside a prefix that lacks `q`'s first character. */
  lemma {:induction false} ContainsPastPrefix(x: string, y: string, q: string)
    requires q != [] && q[0] !in x
    ensures Contains(x + y, q) ==> Contains(y, q)
    decreases |x|
  {
    if x != [] {
      assert (x + y)[1..] == x[1..] + y;
      if Contains(x + y, q) {
        assert (x + y)[0] == x[0];
        ContainsPastPrefix(x[1..], y, q);
      }
    } else {
      assert x + y == y;
    }
  }

  /** A prefix of `s.replace(pat, repl)` that holds no character of `repl`
      was copied from `s` unchanged. */
  lemma {:induction false} ReplacePrefixCopied(s: string, pat: string, repl: string, k: nat)
    requires pat != [] && repl != []
    requires k <= |Replace(s, pat, repl)|
    requires forall i :: 0 <= i < k ==> Replace(s, pat, repl)[i] !in repl
    ensures k <= |s| && Replace(s, pat, repl)[..k] == s[..k]
    decreases |s|
  {
    var r := Replace(s, pat, repl);
    if |s| < |pat| {
    } else if s[..|pat|] == pat {
      assert r[0] == repl[0];
    } else if k > 0 {
      var r' := Replace(s[1..], pat, repl);
      assert r == [s[0]] + r';
      forall i | 0 <= i < k - 1 ensures r'[i] !in repl {
        assert r'[i] == r[i + 1];
      }
      ReplacePrefixCopied(s[1..], pat, repl, k - 1);
      assert r[..k] == [s[0]] + r'[..k - 1];
      assert s[..k] == [s[0]] + s[1..][..k - 1];
    }
  }

  /** What `s.replace(pat, repl)` contains when `repl` shares no character
      with `q`: every occurrence of `q` was already in `s`, and the
      pattern itself is gone. */
  lemma {:induction false} ReplaceOccurrences(s: string, pat: string, repl: string, q: string)
    requires pat != [] && repl != [] && q != []
    requires forall c :: c in repl ==> c !in q
    ensures Contains(Replace(s, pat, repl), q) ==> Contains(s, q) && q != pat
    decreases |s|
  {
    var r := Replace(s, pat, repl);
    if !Contains(r, q) {
    } else if |s| < |pat| {
    } else if s[..|pat|] == pat {
      var r' := Replace(s[|pat|..], pat, repl);
      assert q[0] in q;
      ContainsPastPrefix(repl, r', q);
      ReplaceOccurrences(s[|pat|..], pat, repl, q);
      ContainsInSuffix(s, |pat|, q);
    } else {
      var r' := Replace(s[1..], pat, repl);
      assert r == [s[0]] + r';
      if r[..|q|] == q {
        forall i | 0 <= i < |q| - 1 ensures r'[i] !in repl {
          assert r'[i] == q[i + 1];
        }
        ReplacePrefixCopied(s[1..], pat, repl, |q| - 1);
        assert q == [s[0]] + r'[..|q| - 1];
        assert s[..|q|] == [s[0]] + s[1..][..|q| - 1];
      } else {
        assert Contains(r', q);
        ReplaceOccurrences(s[1..], pat, repl, q);
        ContainsInSuffix(s, 1, q);
      }
    }
  }

  /** The word at the front of `w + rest` is `w` when `rest` starts with a space. */
  lemma {:induction false} WordLenOfWord(w: string, rest: string)
    requires IsWord(w)
    requires rest == [] || IsSpace(rest[0])
    ensures WordLen(w + rest) == |w|
    decreases |w|
  {
    if |w| > 1 {
      assert (w + rest)[1..] == w[1..] + rest;
      WordLenOfWord(w[1..], rest);
    } else {
      assert (w + rest)[1..] == rest;
    }
  }

  /** Leading whitespace does not change what `split()` returns. */
  lemma {:induction false} SplitWhitespaceSkipsSpace(s: string)
    requires s != [] && IsSpace(s[0])
    ensures SplitWhitespace(s) == SplitWhitespace(s[1..])
  {
  }

  /** A word followed by a space and more text splits into that word
      and the split of the text. */
  lemma SplitWordThenRest(w: string, tail: string)
    requires IsWord(w)
    ensures SplitWhitespace(w + " " + tail) == [w] + SplitWhitespace(tail)
  {
    var s := w + " " + tail;
    assert s == w + (" " + tail);
    assert ' ' in Whitespace;
    WordLenOfWord(w, " " + tail);
    assert s[..|w|] == w;
    assert s[|w|..] == " " + tail;
    SplitWhitespaceSkipsSpace(" " + tail);
    assert (" " + tail)[1..] == tail;
  }

  /** Joining `split()` tokens with single spaces and splitting again
      gives the same tokens back. */
  lemma {:induction false} SplitJoinWords(words: seq<string>)
    requires forall i :: 0 <= i < |words| ==> IsWord(words[i])
    ensures SplitWhitespace(Join(" ", words)) == words
    decreases |words|
  {
    if words == [] {
    } else if |words| == 1 {
      var w := words[0];
      WordLenOfWord(w, "");
      assert w + "" == w;
      assert w[|w|..] == [];
    } else {
      SplitWordThenRest(words[0], Join(" ", words[1..]));
      SplitJoinWords(words[1..]);
      assert words == [words[0]] + words[1..];
    }
  }

  /** `split()` of a string made only of whitespace is empty. */
  lemma {:induction false} SplitWhitespaceOfBlank(s: string)
    requires forall i :: 0 <= i < |s| ==> IsSpace(s[i])
    ensures SplitWhitespace(s) == []
    decreases |s|
  {
    if s != [] {
      SplitWhitespaceOfBlank(s[1..]);
    }
  }

  /** Without the separator `s.split(sep)` is `[s]`. */
  lemma {:induction false} SplitAtWithoutSep(s: string, sep: char)
    requires Count(s, sep) == 0
    ensures SplitAt(s, sep) == [s]
    decreases |s|
  {
    if s != [] {
      SplitAtWithoutSep(s[1..], sep);
      assert [s[0]] + s[1..] == s;
    }
  }
}
