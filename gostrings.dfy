/**
 * The pieces of Go's `strings` and `unicode` packages that the tool relies on:
 * `unicode.IsSpace`, `strings.Fields`, `strings.Join`, `strings.Split` with a
 * one-character separator, and `strings.ToLower`. Strings are sequences of
 * Unicode scalar values (Go decodes its UTF-8 bytes into runes the same way).
 */
module GoStrings {

  /**
   * The runes `unicode.IsSpace` accepts: '\t', '\n', '\v', '\f', '\r', ' ',
   * U+0085 and U+00A0 in Latin-1, and the other White_Space code points.
   */
  const Spaces: set<char> := {' ', '\t', '\n', '\U{000B}', '\U{000C}', '\r', '\U{0085}', '\U{00A0}', '\U{1680}',
    '\U{2000}', '\U{2001}', '\U{2002}', '\U{2003}', '\U{2004}', '\U{2005}', '\U{2006}', '\U{2007}',
    '\U{2008}', '\U{2009}', '\U{200A}', '\U{2028}', '\U{2029}', '\U{202F}', '\U{205F}', '\U{3000}'}

  /** `unicode.IsSpace`. Among ASCII runes, exactly ' ' and '\t' through '\r'. */
  predicate IsSpace(c: char)
    ensures c < 128 as char ==> (IsSpace(c) <==> c == ' ' || '\t' <= c <= '\r')
  {
    c in Spaces
  }

  /** A token produced by `strings.Fields`: non-empty and free of white space. */
  predicate IsField(w: string)
  {
    |w| > 0 && forall i :: 0 <= i < |w| ==> !IsSpace(w[i])
  }

  /** Length of the longest prefix of `s` holding no white space. */
  function WordEnd(s: string): (n: nat)
    ensures n <= |s|
    ensures forall i :: 0 <= i < n ==> !IsSpace(s[i])
    ensures n < |s| ==> IsSpace(s[n])
  {
    if s == [] || IsSpace(s[0]) then 0 else 1 + WordEnd(s[1..])
  }

  /** `strings.Fields`: the maximal runs of non-space characters, in order. */
  function Fields(s: string): (fs: seq<string>)
    ensures forall k :: 0 <= k < |fs| ==> IsField(fs[k])
    decreases |s|
  {
    if s == [] then []
    else if IsSpace(s[0]) then Fields(s[1..])
    else
      var n := WordEnd(s);
      [s[..n]] + Fields(s[n..])
  }

  /** `strings.Join(parts, string(sep))`. */
  function Join(parts: seq<string>, sep: char): (r: string)
    ensures |parts| > 0 ==> |parts[0]| <= |r| && r[..|parts[0]|] == parts[0]
    ensures |parts| > 1 ==> |parts[0]| < |r| && r[|parts[0]|] == sep
  {
    if parts == [] then []
    else if |parts| == 1 then parts[0]
    else parts[0] + [sep] + Join(parts[1..], sep)
  }

  /** `strings.Index(s, string(sep))`, with `|s|` standing for "not found". */
  function IndexOf(s: string, sep: char): (i: nat)
    ensures i <= |s|
    ensures sep !in s[..i]
    ensures i < |s| ==> s[i] == sep
  {
    if s == [] then 0
    else if s[0] == sep then 0
    else 1 + IndexOf(s[1..], sep)
  }

  /** `strings.Split(s, string(sep))`: the pieces between the separators. */
  function Split(s: string, sep: char): (parts: seq<string>)
    ensures |parts| >= 1
    decreases |s|
  {
    var i := IndexOf(s, sep);
    if i == |s| then [s] else [s[..i]] + Split(s[i + 1..], sep)
  }

  /**
   * `unicode.ToLower` on one rune. The ASCII capitals map to their lower-case
   * letters; U+0130 (capital I with dot) and U+212A (Kelvin sign) are the only
   * other runes Go lowers into ASCII ('i' and 'k'). Other runes are kept.
   */
  function LowerChar(c: char): (r: char)
    ensures !('A' <= r <= 'Z')
    ensures r != c ==> 'a' <= r <= 'z'
    ensures 'a' <= r <= 'z' <==> 'a' <= c <= 'z' || 'A' <= c <= 'Z' || c == '\U{0130}' || c == '\U{212A}'
  {
    if 'A' <= c <= 'Z' then (c as int + 32) as char
    else if c == '\U{0130}' then 'i'
    else if c == '\U{212A}' then 'k'
    else c
  }

  /** `strings.ToLower`. */
  function ToLower(s: string): (r: string)
    ensures |r| == |s|
    ensures forall i :: 0 <= i < |s| ==> r[i] == LowerChar(s[i])
  {
    if s == [] then [] else [LowerChar(s[0])] + ToLower(s[1..])
  }

  // ---------------------------------------------------------------------
  // Split and Join

  /** Joining the pieces of a split with the same separator gives the input back. */
  lemma {:induction false} JoinSplit(s: string, sep: char)
    ensures Join(Split(s, sep), sep) == s
    decreases |s|
  {
    var i := IndexOf(s, sep);
    if i < |s| {
      var rest := s[i + 1..];
      JoinSplit(rest, sep);
      SplitAt(s, sep, i);
      JoinCons(s[..i], Split(rest, sep), sep);
      PieceSepRest(s, i);
    } else {
      SplitWhole(s, sep);
    }
  }

  /** Joining a piece in front of other pieces puts a separator between them. */
  lemma JoinCons(x: string, tail: seq<string>, sep: char)
    requires |tail| >= 1
    ensures Join([x] + tail, sep) == x + [sep] + Join(tail, sep)
  {
    assert ([x] + tail)[1..] == tail;
  }

  /** A sequence is its prefix, the element at `i`, and its suffix. */
  lemma PieceSepRest<T>(s: seq<T>, i: nat)
    requires i < |s|
    ensures s[..i] + [s[i]] + s[i + 1..] == s
  {
  }

  /** No piece of a split contains the separator. */
  lemma {:induction false} SplitPiecesFree(s: string, sep: char)
    ensures forall k :: 0 <= k < |Split(s, sep)| ==> sep !in Split(s, sep)[k]
    decreases |s|
  {
    var i := IndexOf(s, sep);
    if i < |s| {
      SplitPiecesFree(s[i + 1..], sep);
      assert s[..i] == s[..i][..i];
    } else {
      assert s == s[..i];
    }
  }

  /** There is one more piece than there are separators. */
  lemma {:induction false} SplitCount(s: string, sep: char)
    ensures |Split(s, sep)| == multiset(s)[sep] + 1
    decreases |s|
  {
    var i := IndexOf(s, sep);
    if i < |s| {
      SplitCount(s[i + 1..], sep);
      SplitAt(s, sep, i);
      PieceSepRest(s, i);
      MultisetOfPieces(s[..i], s[i], s[i + 1..]);
      assert multiset(s[..i])[sep] == 0;
    } else {
      SplitWhole(s, sep);
      assert s[..i] == s;
    }
  }

  lemma MultisetOfPieces<T>(a: seq<T>, x: T, b: seq<T>)
    ensures multiset(a + [x] + b) == multiset(a) + multiset{x} + multiset(b)
  {
  }

  /** Splitting at a separator splits the two sides independently. */
  lemma {:induction false} SplitAround(a: string, sep: char, b: string)
    ensures Split(a + [sep] + b, sep) == Split(a, sep) + Split(b, sep)
    decreases |a|
  {
    var s := a + [sep] + b;
    var i := IndexOf(a, sep);
    IndexOfPrefix(a, sep, [sep] + b);
    assert s == a + ([sep] + b);
    if i < |a| {
      var a' := a[i + 1..];
      SplitAround(a', sep, b);
      SplitAroundStep(a, sep, b, i);
    } else {
      assert IndexOf([sep] + b, sep) == 0;
      SplitAt(s, sep, |a|);
      assert s[..|a|] == a;
      assert s[|a| + 1..] == b;
      SplitWhole(a, sep);
    }
  }

  /** The inductive step of `SplitAround` when `a` holds a separator at `i`. */
  lemma SplitAroundStep(a: string, sep: char, b: string, i: nat)
    requires i == IndexOf(a, sep) && i < |a|
    requires IndexOf(a + [sep] + b, sep) == i
    requires Split(a[i + 1..] + [sep] + b, sep) == Split(a[i + 1..], sep) + Split(b, sep)
    ensures Split(a + [sep] + b, sep) == Split(a, sep) + Split(b, sep)
  {
    var s := a + [sep] + b;
    SplitAt(s, sep, i);
    SplitAt(a, sep, i);
    SliceOfConcat(a, [sep] + b, i);
    ConcatAssoc(a, [sep], b);
    ConcatAssoc(a[i + 1..], [sep], b);
    ConcatAssoc([a[..i]], Split(a[i + 1..], sep), Split(b, sep));
  }

  lemma ConcatAssoc<T>(x: seq<T>, y: seq<T>, z: seq<T>)
    ensures x + (y + z) == (x + y) + z
  {
  }

  lemma SliceOfConcat<T>(a: seq<T>, x: seq<T>, i: nat)
    requires i < |a|
    ensures (a + x)[..i] == a[..i] && (a + x)[i + 1..] == a[i + 1..] + x
  {
  }

  /** One unfolding of `Split` at its first separator. */
  lemma SplitAt(s: string, sep: char, i: nat)
    requires i == IndexOf(s, sep) && i < |s|
    ensures Split(s, sep) == [s[..i]] + Split(s[i + 1..], sep)
  {
  }

  /** `Split` of a string without a separator. */
  lemma SplitWhole(s: string, sep: char)
    requires IndexOf(s, sep) == |s|
    ensures Split(s, sep) == [s]
  {
  }

  /** The first separator of `a + b` is that of `a` when `a` has one, else at `|a|` or later. */
  lemma {:induction false} IndexOfPrefix(a: string, sep: char, b: string)
    ensures IndexOf(a, sep) < |a| ==> IndexOf(a + b, sep) == IndexOf(a, sep)
    ensures IndexOf(a, sep) == |a| ==> IndexOf(a + b, sep) == |a| + IndexOf(b, sep)
    decreases |a|
  {
    if a != [] {
      assert (a + b)[1..] == a[1..] + b;
      IndexOfPrefix(a[1..], sep, b);
    } else {
      assert a + b == b;
    }
  }

  /** Splitting a join of separator-free pieces gives the pieces back. */
  lemma {:induction false} SplitJoin(parts: seq<string>, sep: char)
    requires |parts| >= 1
    requires forall k :: 0 <= k < |parts| ==> sep !in parts[k]
    ensures Split(Join(parts, sep), sep) == parts
    decreases |parts|
  {
    if |parts| == 1 {
      SplitNoSep(parts[0], sep);
    } else {
      var rest := parts[1..];
      assert forall k :: 0 <= k < |rest| ==> sep !in rest[k] by {
        assert forall k :: 0 <= k < |rest| ==> rest[k] == parts[k + 1];
      }
      SplitJoin(rest, sep);
      calc {
        Split(Join(parts, sep), sep);
        { JoinCons(parts[0], rest, sep); assert [parts[0]] + rest == parts; }
        Split(parts[0] + [sep] + Join(rest, sep), sep);
        { SplitAround(parts[0], sep, Join(rest, sep)); }
        Split(parts[0], sep) + Split(Join(rest, sep), sep);
        { SplitNoSep(parts[0], sep); }
        [parts[0]] + rest;
        parts;
      }
    }
  }

  /**
   * The first piece runs up to the first separator, and there is a second piece
   * exactly when the separator occurs.
   */
  lemma SplitFirst(s: string, sep: char)
    ensures Split(s, sep)[0] == s[..IndexOf(s, sep)]
    ensures |Split(s, sep)| >= 2 <==> sep in s
  {
    var i := IndexOf(s, sep);
    if i == |s| {
      assert s[..i] == s;
    } else {
      assert s[i] == sep;
    }
  }

  /** A string without the separator splits into itself alone. */
  lemma SplitNoSep(s: string, sep: char)
    requires sep !in s
    ensures Split(s, sep) == [s]
  {
  }

  // ---------------------------------------------------------------------
  // Fields and Join

  /** A field followed by white space is read as that field, then the rest. */
  lemma FieldsAfterField(w: string, sp: char, rest: string)
    requires IsField(w) && IsSpace(sp)
    ensures Fields(w + [sp] + rest) == [w] + Fields(rest)
  {
    var s := w + [sp] + rest;
    WordEndOf(w, [sp] + rest);
    assert s == w + ([sp] + rest);
    assert s[..|w|] == w;
    assert s[|w|..] == [sp] + rest;
    assert ([sp] + rest)[1..] == rest;
  }

  /** A field alone is read as itself. */
  lemma FieldsOfField(w: string)
    requires IsField(w)
    ensures Fields(w) == [w]
  {
    WordEndOf(w, []);
    assert w + [] == w;
    assert w[|w|..] == [];
  }

  /**
   * A white-space rune separates: the fields of `a + [sp] + b` are those of `a`
   * followed by those of `b`. With `FieldsOfSpaces` and `FieldsOfField` this
   * determines `Fields` on every string.
   */
  lemma {:induction false} FieldsAround(a: string, sp: char, b: string)
    requires IsSpace(sp)
    ensures Fields(a + [sp] + b) == Fields(a) + Fields(b)
    decreases |a|
  {
    if a == [] {
      assert a + [sp] + b == [sp] + b;
      FieldsAfterSpace(sp, b);
    } else if IsSpace(a[0]) {
      FieldsAround(a[1..], sp, b);
      FieldsAroundSpace(a[0], a[1..], sp, b);
      assert [a[0]] + a[1..] == a;
    } else if WordEnd(a) == |a| {
      FieldsAroundWord(a, sp, b);
    } else {
      FieldsAround(a[WordEnd(a)..], sp, b);
      FieldsAroundSplit(a, sp, b, WordEnd(a));
    }
  }

  /** `FieldsAround` for `[c] + a` with `c` white space, given it for `a`. */
  lemma FieldsAroundSpace(c: char, a: string, sp: char, b: string)
    requires IsSpace(c)
    requires Fields(a + [sp] + b) == Fields(a) + Fields(b)
    ensures Fields([c] + a + [sp] + b) == Fields([c] + a) + Fields(b)
  {
    var rest := a + [sp] + b;
    assert [c] + a + [sp] + b == [c] + rest;
    FieldsAfterSpace(c, rest);
    FieldsAfterSpace(c, a);
  }

  /** `FieldsAround` for `a` that is one field. */
  lemma FieldsAroundWord(a: string, sp: char, b: string)
    requires IsSpace(sp) && IsField(a)
    ensures Fields(a + [sp] + b) == Fields(a) + Fields(b)
  {
    assert a + [sp] + b == a + ([sp] + b);
    FieldsAfterWord(a, [sp] + b);
    FieldsAfterWord(a, []);
    assert a + [] == a;
    FieldsAfterSpace(sp, b);
  }

  /** `FieldsAround` for `a` whose first field ends at `m`, given it for `a[m..]`. */
  lemma FieldsAroundSplit(a: string, sp: char, b: string, m: nat)
    requires IsSpace(sp) && 0 < m < |a| && IsSpace(a[m])
    requires forall i :: 0 <= i < m ==> !IsSpace(a[i])
    requires Fields(a[m..] + [sp] + b) == Fields(a[m..]) + Fields(b)
    ensures Fields(a + [sp] + b) == Fields(a) + Fields(b)
  {
    var w, t := a[..m], a[m..];
    assert a == w + t;
    assert a + [sp] + b == w + (t + [sp] + b);
    FieldsAfterWord(w, t + [sp] + b);
    FieldsAfterWord(w, t);
  }

  /** A leading white-space rune is dropped. */
  lemma FieldsAfterSpace(sp: char, t: string)
    requires IsSpace(sp)
    ensures Fields([sp] + t) == Fields(t)
  {
    assert ([sp] + t)[1..] == t;
  }

  /** A leading field followed by white space or nothing is the first field. */
  lemma FieldsAfterWord(w: string, t: string)
    requires IsField(w) && (t == [] || IsSpace(t[0]))
    ensures Fields(w + t) == [w] + Fields(t)
  {
    WordEndOf(w, t);
    assert (w + t)[..|w|] == w && (w + t)[|w|..] == t;
  }

  /** A string of white space alone has no fields. */
  lemma {:induction false} FieldsOfSpaces(s: string)
    requires forall i :: 0 <= i < |s| ==> IsSpace(s[i])
    ensures Fields(s) == []
    decreases |s|
  {
    if s != [] {
      FieldsOfSpaces(s[1..]);
    }
  }

  /** The word at the front of `w + t` ends where the field `w` does when `t` starts with a space. */
  lemma {:induction false} WordEndOf(w: string, t: string)
    requires forall i :: 0 <= i < |w| ==> !IsSpace(w[i])
    requires t == [] || IsSpace(t[0])
    ensures WordEnd(w + t) == |w|
    decreases |w|
  {
    if w == [] {
      assert w + t == t;
    } else {
      assert (w + t)[1..] == w[1..] + t;
      WordEndOf(w[1..], t);
    }
  }

  /** Re-tokenizing fields joined with single spaces gives the same fields back. */
  lemma {:induction false} FieldsJoin(fs: seq<string>)
    requires forall k :: 0 <= k < |fs| ==> IsField(fs[k])
    ensures Fields(Join(fs, ' ')) == fs
    decreases |fs|
  {
    if |fs| == 1 {
      FieldsOfField(fs[0]);
    } else if |fs| > 1 {
      FieldsJoin(fs[1..]);
      JoinCons(fs[0], fs[1..], ' ');
      assert [fs[0]] + fs[1..] == fs;
      FieldsAfterField(fs[0], ' ', Join(fs[1..], ' '));
    }
  }

  /**
   * A string in which white space occurs only as single ' ' characters between
   * non-space characters: no leading, trailing, doubled or other white space.
   */
  predicate SingleSpaced(s: string)
  {
    forall i :: 0 <= i < |s| && IsSpace(s[i]) ==>
      s[i] == ' ' && 0 < i < |s| - 1 && !IsSpace(s[i - 1]) && !IsSpace(s[i + 1])
  }

  /** Fields joined with single spaces are single-spaced and non-empty when there is a field. */
  lemma {:induction false} JoinFieldsSingleSpaced(fs: seq<string>)
    requires forall k :: 0 <= k < |fs| ==> IsField(fs[k])
    ensures SingleSpaced(Join(fs, ' '))
    ensures |fs| > 0 ==> |Join(fs, ' ')| > 0
    decreases |fs|
  {
    if |fs| > 1 {
      JoinFieldsSingleSpaced(fs[1..]);
      JoinStartsWithField(fs[1..]);
      JoinCons(fs[0], fs[1..], ' ');
      assert [fs[0]] + fs[1..] == fs;
      FieldSpaceSingleSpaced(fs[0], Join(fs[1..], ' '));
    }
  }

  /** A field, one space and a single-spaced string that starts with a non-space are single-spaced. */
  lemma FieldSpaceSingleSpaced(w: string, t: string)
    requires IsField(w) && SingleSpaced(t) && |t| > 0 && !IsSpace(t[0])
    ensures SingleSpaced(w + [' '] + t)
  {
    var s := w + [' '] + t;
    assert forall i :: 0 <= i < |w| ==> s[i] == w[i];
    assert s[|w|] == ' ';
    assert forall j :: 0 <= j < |t| ==> s[|w| + 1 + j] == t[j];
    forall i | |w| < i < |s| && IsSpace(s[i])
      ensures s[i] == ' ' && 0 < i < |s| - 1 && !IsSpace(s[i - 1]) && !IsSpace(s[i + 1])
    {
      var j := i - |w| - 1;
      assert s[i] == t[j];
      assert 0 < j < |t| - 1;
      assert s[i - 1] == t[j - 1];
      assert s[i + 1] == t[j + 1];
    }
  }

  /** A join of fields starts with the first character of the first field. */
  lemma JoinStartsWithField(fs: seq<string>)
    requires |fs| > 0 && IsField(fs[0])
    ensures |Join(fs, ' ')| > 0 && Join(fs, ' ')[0] == fs[0][0]
  {
  }

  /** Lower-casing works rune by rune, so it distributes over concatenation. */
  lemma ToLowerConcat(a: string, b: string)
    ensures ToLower(a + b) == ToLower(a) + ToLower(b)
  {
  }

  /** `l` is `s` lower-cased rune by rune. */
  predicate LowersTo(s: string, l: string)
  {
    |s| == |l| && forall i :: 0 <= i < |s| ==> LowerChar(s[i]) == l[i]
  }

  /** Lower-casing is determined by the runes' own lower cases. */
  lemma ToLowerOf(s: string, l: string)
    requires LowersTo(s, l)
    ensures ToLower(s) == l
  {
  }
}
