/** Sequence and text helpers shared by the models of the two PTY helpers:
    bytes, optional values, splitting on a separator, whitespace trimming,
    substring search and ASCII lower-casing. */
module Common {

  /** One octet read from or written to a file descriptor. */
  type Byte = b: int | 0 <= b < 256

  datatype Option<T> = None | Some(value: T)

  /** Number of occurrences of `x` in `s`. */
  function Count<T(==)>(s: seq<T>, x: T): nat
  {
    if s == [] then 0 else Count(s[1..], x) + (if s[0] == x then 1 else 0)
  }

  /** Index of the first occurrence of `x` in `s` (Rust `iter().position`). */
  function FirstIndex<T(==)>(s: seq<T>, x: T): (r: Option<nat>)
    ensures r.None? <==> x !in s
    ensures r.Some? ==> r.value < |s| && s[r.value] == x && x !in s[..r.value]
  {
    if s == [] then None
    else if s[0] == x then Some(0)
    else
      var rest := FirstIndex(s[1..], x);
      if rest.None? then None
      else
        assert s[1..][..rest.value] == s[1..rest.value + 1];
        Some(rest.value + 1)
  }

  // ---------------------------------------------------------------------
  // Splitting on a separator (Rust `[T]::split`, Python `str.split(sep)`)
  // ---------------------------------------------------------------------

  /** The pieces of `s` between occurrences of `sep`: one more piece than
      there are separators, empty pieces included. */
  function Split<T(==)>(s: seq<T>, sep: T): (r: seq<seq<T>>)
    ensures |r| == Count(s, sep) + 1
    ensures forall k :: 0 <= k < |r| ==> sep !in r[k]
  {
    if s == [] then [[]]
    else
      var rest := Split(s[1..], sep);
      if s[0] == sep then [[]] + rest
      else [[s[0]] + rest[0]] + rest[1..]
  }

  /** The pieces glued back together with `sep` between neighbours. */
  function Join<T>(parts: seq<seq<T>>, sep: T): seq<T>
    requires |parts| >= 1
  {
    if |parts| == 1 then parts[0] else parts[0] + [sep] + Join(parts[1..], sep)
  }

  /** Joining the pieces restores the input. */
  lemma {:induction false} JoinSplit<T>(s: seq<T>, sep: T)
    ensures Join(Split(s, sep), sep) == s
  {
    if s != [] {
      var rest := Split(s[1..], sep);
      JoinSplit(s[1..], sep);
      if s[0] != sep {
        if |rest| == 1 {
          assert Join(Split(s, sep), sep) == [s[0]] + rest[0];
        } else {
          assert rest == [rest[0]] + rest[1..];
          assert Join(rest, sep) == rest[0] + [sep] + Join(rest[1..], sep);
          assert Join(Split(s, sep), sep) == [s[0]] + rest[0] + [sep] + Join(rest[1..], sep);
        }
      }
    }
  }

  /** Splitting a join of separator-free pieces gives the pieces back. */
  lemma {:induction false} SplitJoin<T>(parts: seq<seq<T>>, sep: T)
    requires |parts| >= 1
    requires forall k :: 0 <= k < |parts| ==> sep !in parts[k]
    ensures Split(Join(parts, sep), sep) == parts
  {
    if |parts| == 1 {
      SplitNoSep(parts[0], sep);
    } else {
      SplitJoin(parts[1..], sep);
      var tail := [sep] + Join(parts[1..], sep);
      SplitPrefix(parts[0], tail, sep);
      assert Join(parts, sep) == parts[0] + tail;
      assert tail[0] == sep && tail[1..] == Join(parts[1..], sep);
      var st := Split(tail, sep);
      assert st == [[]] + parts[1..];
      assert st[0] == [] && st[1..] == parts[1..];
      assert parts[0] + st[0] == parts[0];
      assert Split(Join(parts, sep), sep) == [parts[0] + st[0]] + st[1..];
      assert parts == [parts[0]] + parts[1..];
    }
  }

  /** A separator-free sequence is a single piece. */
  lemma {:induction false} SplitNoSep<T>(s: seq<T>, sep: T)
    requires sep !in s
    ensures Split(s, sep) == [s]
  {
    if s != [] {
      SplitNoSep(s[1..], sep);
      assert [s[0]] + s[1..] == s;
    }
  }

  /** A separator-free prefix extends the first piece of what follows. */
  lemma {:induction false} SplitPrefix<T>(a: seq<T>, b: seq<T>, sep: T)
    requires sep !in a
    ensures Split(a + b, sep) == [a + Split(b, sep)[0]] + Split(b, sep)[1..]
  {
    var x := Split(b, sep);
    if a == [] {
      assert a + b == b && x == [x[0]] + x[1..] && a + x[0] == x[0];
    } else {
      assert (a + b)[1..] == a[1..] + b && (a + b)[0] == a[0];
      SplitPrefix(a[1..], b, sep);
      var y := Split(a[1..] + b, sep);
      assert Split(a + b, sep) == [[a[0]] + y[0]] + y[1..];
      assert [a[0]] + (a[1..] + x[0]) == a + x[0];
    }
  }

  // ---------------------------------------------------------------------
  // Whitespace and trimming
  // ---------------------------------------------------------------------

  /** Rust `char::is_whitespace`: the Unicode White_Space property. */
  predicate IsRustWhitespace(c: char)
  {
    ('\U{9}' <= c <= '\U{D}') || c == ' ' || c == '\U{85}' || c == '\U{A0}'
    || c == '\U{1680}' || ('\U{2000}' <= c <= '\U{200A}') || c == '\U{2028}'
    || c == '\U{2029}' || c == '\U{202F}' || c == '\U{205F}' || c == '\U{3000}'
  }

  /** Python `str.isspace`: White_Space plus the four ASCII separators
      U+001C..U+001F. */
  predicate IsPyWhitespace(c: char)
  {
    IsRustWhitespace(c) || ('\U{1C}' <= c <= '\U{1F}')
  }

  /** `s` without its leading characters satisfying `ws`. */
  function TrimStart(s: string, ws: char -> bool): (r: string)
    ensures |r| <= |s| && r == s[|s| - |r|..]
    ensures forall k :: 0 <= k < |s| - |r| ==> ws(s[k])
    ensures r != [] ==> !ws(r[0])
  {
    if s != [] && ws(s[0]) then TrimStart(s[1..], ws) else s
  }

  /** `s` without its trailing characters satisfying `ws`. */
  function TrimEnd(s: string, ws: char -> bool): (r: string)
    ensures |r| <= |s| && r == s[..|r|]
    ensures forall k :: |r| <= k < |s| ==> ws(s[k])
    ensures r != [] ==> !ws(r[|r| - 1])
  {
    if s != [] && ws(s[|s| - 1]) then TrimEnd(s[..|s| - 1], ws) else s
  }

  /** Both ends trimmed: Rust `str::trim` with `IsRustWhitespace`, Python
      `str.strip()` with `IsPyWhitespace`. */
  function Trim(s: string, ws: char -> bool): string
  {
    TrimEnd(TrimStart(s, ws), ws)
  }

  /** No character of `w` is whitespace. */
  predicate NoWhitespace(w: string)
  {
    forall j :: 0 <= j < |w| ==> !IsRustWhitespace(w[j])
  }

  /** Rust `split_whitespace`: the maximal runs of non-whitespace, in order.
      `TokensCover` and `TokensOfInterleave` tie them to the text. */
  function Tokens(s: string): (r: seq<string>)
    ensures forall k :: 0 <= k < |r| ==> r[k] != [] && NoWhitespace(r[k])
    decreases |s|
  {
    if s == [] then []
    else if IsRustWhitespace(s[0]) then Tokens(s[1..])
    else
      var w := Word(s);
      assert w != [];
      [w] + Tokens(s[|w|..])
  }

  /** The longest whitespace-free prefix of `s`. */
  function Word(s: string): (r: string)
    ensures r <= s && NoWhitespace(r)
    ensures |r| < |s| ==> IsRustWhitespace(s[|r|])
  {
    if s == [] || IsRustWhitespace(s[0]) then [] else [s[0]] + Word(s[1..])
  }

  /** Every character of `g` is whitespace. */
  predicate AllWhitespace(g: string)
  {
    forall j :: 0 <= j < |g| ==> IsRustWhitespace(g[j])
  }

  /** A text has no tokens exactly when it is all whitespace. */
  lemma {:induction false} TokensNone(s: string)
    ensures Tokens(s) == [] <==> AllWhitespace(s)
    decreases |s|
  {
    if s != [] && IsRustWhitespace(s[0]) {
      TokensNone(s[1..]);
      assert forall j :: 0 < j < |s| ==> s[j] == s[1..][j - 1];
    }
  }

  /** Whitespace, then a word, then a break: the word is the first token. */
  lemma {:induction false} TokensCons(g: string, w: string, x: string)
    requires AllWhitespace(g) && w != [] && NoWhitespace(w)
    requires x == [] || IsRustWhitespace(x[0])
    ensures Tokens(g + (w + x)) == [w] + Tokens(x)
    decreases |g|
  {
    if g == [] {
      assert g + (w + x) == w + x;
      WordPrefix(w, x);
      assert (w + x)[|w|..] == x;
    } else {
      var s := g + (w + x);
      assert s[0] == g[0] && s[1..] == g[1..] + (w + x);
      TokensCons(g[1..], w, x);
    }
  }

  /** The word at the start of `w + x` is `w` when `x` starts with whitespace. */
  lemma {:induction false} WordPrefix(w: string, x: string)
    requires NoWhitespace(w) && (x == [] || IsRustWhitespace(x[0]))
    ensures Word(w + x) == w
    decreases |w|
  {
    if w == [] {
      assert w + x == x;
    } else {
      assert (w + x)[0] == w[0] && (w + x)[1..] == w[1..] + x;
      WordPrefix(w[1..], x);
    }
  }

  /** `gaps[0] + words[0] + gaps[1] + ... + words[n - 1] + gaps[n]`. */
  function Interleave(gaps: seq<string>, words: seq<string>): string
    requires |gaps| == |words| + 1
    decreases |words|
  {
    if words == [] then gaps[0] else gaps[0] + (words[0] + Interleave(gaps[1..], words[1..]))
  }

  /** `words` are non-empty whitespace-free runs and `gaps` the whitespace
      around them, non-empty between two words. */
  predicate Separates(gaps: seq<string>, words: seq<string>)
  {
    && |gaps| == |words| + 1
    && (forall k :: 0 <= k < |gaps| ==> AllWhitespace(gaps[k]))
    && (forall k :: 0 < k < |words| ==> gaps[k] != [])
    && (forall k :: 0 <= k < |words| ==> words[k] != [] && NoWhitespace(words[k]))
  }

  /** Every text is its tokens with whitespace around and between them. */
  lemma TokensCover(s: string)
    ensures exists gaps :: Separates(gaps, Tokens(s)) && Interleave(gaps, Tokens(s)) == s
  {
    var gaps := TokensGaps(s);
  }

  /** The gaps of `TokensCover`, built along the recursion of `Tokens`. */
  lemma {:induction false} TokensGaps(s: string) returns (gaps: seq<string>)
    ensures Separates(gaps, Tokens(s)) && Interleave(gaps, Tokens(s)) == s
    decreases |s|
  {
    if s == [] {
      gaps := [[]];
    } else if IsRustWhitespace(s[0]) {
      var gaps' := TokensGaps(s[1..]);
      gaps := WiderGap(s[0], gaps', Tokens(s[1..]));
      assert [s[0]] + s[1..] == s;
    } else {
      var w := Word(s);
      var rest := s[|w|..];
      assert w != [] && s == w + rest;
      var gaps' := TokensGaps(rest);
      var words := Tokens(rest);
      if words != [] {
        InterleaveHead(gaps', words);
      }
      SeparatesCons([], w, gaps', words);
      gaps := [[]] + gaps';
      assert [] + (w + rest) == s;
    }
  }

  /** One more whitespace character in front widens the first gap. */
  lemma WiderGap(c: char, gaps: seq<string>, words: seq<string>) returns (gaps': seq<string>)
    requires IsRustWhitespace(c) && Separates(gaps, words)
    ensures Separates(gaps', words)
    ensures Interleave(gaps', words) == [c] + Interleave(gaps, words)
  {
    gaps' := gaps[0 := [c] + gaps[0]];
    assert gaps'[1..] == gaps[1..];
    assert AllWhitespace(gaps'[0]);
  }

  /** One more word in front, behind its own gap. */
  lemma SeparatesCons(g: string, w: string, gaps: seq<string>, words: seq<string>)
    requires AllWhitespace(g) && w != [] && NoWhitespace(w)
    requires Separates(gaps, words) && (words != [] ==> gaps[0] != [])
    ensures Separates([g] + gaps, [w] + words)
    ensures Interleave([g] + gaps, [w] + words) == g + (w + Interleave(gaps, words))
  {
    assert ([g] + gaps)[1..] == gaps && ([w] + words)[1..] == words;
  }

  /** The first character of interleaved words: the first gap's, or the
      first word's when that gap is empty. */
  lemma InterleaveHead(gaps: seq<string>, words: seq<string>)
    requires Separates(gaps, words) && words != []
    ensures Interleave(gaps, words) != []
    ensures Interleave(gaps, words)[0] == if gaps[0] != [] then gaps[0][0] else words[0][0]
  {
    var x := Interleave(gaps[1..], words[1..]);
    assert Interleave(gaps, words) == gaps[0] + (words[0] + x);
  }

  /** Splitting whitespace-separated words gives back the words. */
  lemma {:induction false} TokensOfInterleave(gaps: seq<string>, words: seq<string>)
    requires Separates(gaps, words)
    ensures Tokens(Interleave(gaps, words)) == words
    decreases |words|
  {
    if words == [] {
      TokensNone(gaps[0]);
    } else {
      var x := Interleave(gaps[1..], words[1..]);
      assert Separates(gaps[1..], words[1..]);
      if words[1..] != [] {
        assert x == gaps[1] + (words[1] + Interleave(gaps[2..], words[2..]));
        assert x[0] == gaps[1][0];
      }
      TokensCons(gaps[0], words[0], x);
      TokensOfInterleave(gaps[1..], words[1..]);
      assert Interleave(gaps, words) == gaps[0] + (words[0] + x);
      HeadTail(words);
    }
  }

  /** Proof aid: a non-empty sequence is its head followed by its tail. */
  lemma HeadTail<T>(xs: seq<T>)
    requires xs != []
    ensures [xs[0]] + xs[1..] == xs
  {
  }

  // ---------------------------------------------------------------------
  // Substrings and case
  // ---------------------------------------------------------------------

  /** `t` occurs in `s` starting at index `i`. */
  predicate OccursAt<T(==)>(s: seq<T>, t: seq<T>, i: int)
  {
    0 <= i && i + |t| <= |s| && s[i..i + |t|] == t
  }

  /** Rust `str::contains` / Python `in` on strings: `t` occurs in `s`. */
  function Contains<T(==)>(s: seq<T>, t: seq<T>): (r: bool)
    ensures r <==> exists i :: OccursAt(s, t, i)
    decreases |s|
  {
    if |t| > |s| then false
    else if s[..|t|] == t then assert OccursAt(s, t, 0); true
    else
      var r := Contains(s[1..], t);
      if r then
        var i :| OccursAt(s[1..], t, i);
        assert OccursAt(s, t, i + 1);
        r
      else
        assert forall i :: OccursAt(s, t, i) ==> i >= 1 && OccursAt(s[1..], t, i - 1);
        r
  }

  /** Lower-casing of one character, ASCII letters only. */
  function LowerChar(c: char): char
  {
    if 'A' <= c <= 'Z' then (c as int + 32) as char else c
  }

  /** `str::to_lowercase`, restricted to ASCII letters. */
  function Lower(s: string): (r: string)
    ensures |r| == |s|
    ensures forall k :: 0 <= k < |s| ==> r[k] == LowerChar(s[k])
  {
    if s == [] then [] else [LowerChar(s[0])] + Lower(s[1..])
  }

  // ---------------------------------------------------------------------
  // First match (a loop with an early `return`)
  // ---------------------------------------------------------------------

  /** The first `Some` that `f` gives along `xs`: a search loop that
      returns at its first hit. */
  function FirstOf<T, U>(xs: seq<T>, f: T -> Option<U>): (r: Option<U>)
  {
    if xs == [] then None
    else if f(xs[0]).Some? then f(xs[0])
    else FirstOf(xs[1..], f)
  }

  /** Position `k` decides the search: `f` is `None` before it and gives `v` there. */
  ghost predicate DecidesAt<T, U>(xs: seq<T>, f: T -> Option<U>, k: int, v: U)
  {
    && 0 <= k < |xs|
    && f(xs[k]) == Some(v)
    && forall j :: 0 <= j < k ==> f(xs[j]).None?
  }

  /** The search finds nothing exactly when every element gives `None`,
      and otherwise reports the value at the first element that gives one. */
  lemma {:induction false} FirstOfFirst<T, U>(xs: seq<T>, f: T -> Option<U>)
    ensures FirstOf(xs, f).None? <==> forall k :: 0 <= k < |xs| ==> f(xs[k]).None?
    ensures FirstOf(xs, f).Some? ==> exists k :: DecidesAt(xs, f, k, FirstOf(xs, f).value)
  {
    if xs != [] {
      FirstOfFirst(xs[1..], f);
      if f(xs[0]).Some? {
        assert DecidesAt(xs, f, 0, f(xs[0]).value);
      } else {
        assert forall k :: 1 <= k < |xs| ==> xs[k] == xs[1..][k - 1];
        if FirstOf(xs, f).Some? {
          var k :| DecidesAt(xs[1..], f, k, FirstOf(xs, f).value);
          assert DecidesAt(xs, f, k + 1, FirstOf(xs, f).value);
        }
      }
    }
  }

  /** A search whose first hit is at `p` returns what `f` gives there. */
  lemma {:induction false} FirstOfAt<T, U>(xs: seq<T>, f: T -> Option<U>, p: nat)
    requires p < |xs| && f(xs[p]).Some?
    requires forall j :: 0 <= j < p ==> f(xs[j]).None?
    ensures FirstOf(xs, f) == f(xs[p])
  {
    if p > 0 {
      assert xs[1..][p - 1] == xs[p];
      FirstOfAt(xs[1..], f, p - 1);
    }
  }
}
