/**
 * The three JavaScript string operations the chat route relies on, over
 * strings of Unicode scalar values:
 *   - `String.prototype.toLowerCase`, folded on the ASCII letters (`Lower`);
 *   - `String.prototype.includes` (`Includes`);
 *   - `String.prototype.split` with the pattern `/[\s,，。]+/` (`Split`).
 * `Interleave` is the inverse of `Split`: it writes tokens back with one
 * separator between neighbours.
 */
module Text {

  // ---------------------------------------------------------------------
  // Character classes
  // ---------------------------------------------------------------------

  /** The ECMAScript `\s` class: WhiteSpace (tab, vertical tab, form feed,
      U+FEFF and the Zs category) and LineTerminator (LF, CR, U+2028, U+2029). */
  predicate IsSpace(c: char) {
    || c == '\t' || c == '\n' || c == '\U{000B}' || c == '\U{000C}' || c == '\r'
    || c == ' ' || c == '\U{00A0}' || c == '\U{1680}'
    || ('\U{2000}' <= c <= '\U{200A}')
    || c == '\U{2028}' || c == '\U{2029}' || c == '\U{202F}' || c == '\U{205F}'
    || c == '\U{3000}' || c == '\U{FEFF}'
  }

  /** One character of the class `[\s,，。]` that separates keywords. */
  predicate IsSeparator(c: char) {
    IsSpace(c) || c == ',' || c == '，' || c == '。'
  }

  predicate HasNoSeparator(s: string) {
    forall c | c in s :: !IsSeparator(c)
  }

  predicate IsUpper(c: char) {
    'A' <= c <= 'Z'
  }

  predicate HasNoUpper(s: string) {
    forall c | c in s :: !IsUpper(c)
  }

  // ---------------------------------------------------------------------
  // Lower-casing
  // ---------------------------------------------------------------------

  function LowerChar(c: char): (r: char)
    ensures !IsUpper(r)
    ensures !IsUpper(c) ==> r == c
    ensures IsUpper(c) ==> r as int - c as int == 32
  {
    if IsUpper(c) then (c as int + 32) as char else c
  }

  /** Lower-case every character of `s`, keeping its length. */
  function Lower(s: string): (r: string)
    ensures |r| == |s|
    ensures HasNoUpper(r)
    ensures HasNoUpper(s) ==> r == s
  {
    seq(|s|, i requires 0 <= i < |s| => LowerChar(s[i]))
  }

  /** Lower-casing twice is lower-casing once. */
  lemma LowerIdempotent(s: string)
    ensures Lower(Lower(s)) == Lower(s)
  {
  }

  /** Lower-casing works character by character, so it distributes over `+`. */
  lemma LowerAppend(a: string, b: string)
    ensures Lower(a + b) == Lower(a) + Lower(b)
  {
    assert forall i | 0 <= i < |a + b| :: Lower(a + b)[i] == (Lower(a) + Lower(b))[i];
  }

  // ---------------------------------------------------------------------
  // Substring search
  // ---------------------------------------------------------------------

  /** `p` occurs in `s` starting at position `i`. */
  predicate OccursAt(s: string, p: string, i: int) {
    0 <= i <= |s| - |p| && s[i..i + |p|] == p
  }

  /** `s.includes(p)`: `p` occurs in `s` at some position. As in JavaScript,
      every string includes the empty string. */
  predicate Includes(s: string, p: string)
    ensures p == [] ==> Includes(s, p)
    ensures Includes(s, p) ==> |p| <= |s|
  {
    assert p == [] ==> OccursAt(s, p, 0);
    exists i | 0 <= i <= |s| - |p| :: OccursAt(s, p, i)
  }

  /** A string that includes `p` is at least as long as `p` and holds each
      of its characters. */
  lemma IncludesChars(s: string, p: string)
    requires Includes(s, p)
    ensures |p| <= |s|
    ensures forall c | c in p :: c in s
  {
    var i :| 0 <= i <= |s| - |p| && OccursAt(s, p, i);
    forall c | c in p ensures c in s {
      var j :| 0 <= j < |p| && p[j] == c;
      assert s[i + j] == s[i..i + |p|][j];
    }
  }

  /** Hence a string misses `p` when it lacks one of `p`'s characters. */
  lemma MissingCharExcludes(s: string, p: string, c: char)
    requires c in p && c !in s
    ensures !Includes(s, p)
  {
    if Includes(s, p) {
      IncludesChars(s, p);
    }
  }

  /** Adding text on either side keeps an occurrence. */
  lemma IncludesExtend(a: string, s: string, b: string, p: string)
    requires Includes(s, p)
    ensures Includes(a + s + b, p)
  {
    var i :| 0 <= i <= |s| - |p| && OccursAt(s, p, i);
    assert OccursAt(a + s + b, p, |a| + i) by {
      assert (a + s + b)[|a| + i..|a| + i + |p|] == s[i..i + |p|];
    }
  }

  /** Every string includes itself. */
  lemma IncludesSelf(s: string)
    ensures Includes(s, s)
  {
    assert OccursAt(s, s, 0) by { assert s[0..|s|] == s; }
  }

  /** Inclusion is transitive: what occurs in an occurrence occurs in the
      whole. */
  lemma IncludesTrans(s: string, p: string, q: string)
    requires Includes(s, p) && Includes(p, q)
    ensures Includes(s, q)
  {
    var i :| 0 <= i <= |s| - |p| && OccursAt(s, p, i);
    var j :| 0 <= j <= |p| - |q| && OccursAt(p, q, j);
    forall k | 0 <= k < |q| ensures s[i + j + k] == q[k] {
      assert q[k] == p[j..j + |q|][k] == p[j + k];
      assert p[j + k] == s[i..i + |p|][j + k];
    }
    assert OccursAt(s, q, i + j) by {
      assert s[i + j..i + j + |q|] == q;
    }
  }

  // ---------------------------------------------------------------------
  // Splitting on runs of separators
  // ---------------------------------------------------------------------

  /** Drop the run of separators at the front of `s`. */
  function DropSeparators(s: string): (r: string)
    ensures |r| <= |s|
    ensures r == [] || !IsSeparator(r[0])
    ensures s != [] && IsSeparator(s[0]) ==> |r| < |s|
    ensures s == [] || !IsSeparator(s[0]) ==> r == s
  {
    if s != [] && IsSeparator(s[0]) then DropSeparators(s[1..]) else s
  }

  /** What is left after the run is a suffix of `s`. */
  lemma {:induction false} DropSeparatorsSuffix(s: string)
    ensures DropSeparators(s) == s[|s| - |DropSeparators(s)|..]
    decreases |s|
  {
    if s != [] && IsSeparator(s[0]) {
      DropSeparatorsSuffix(s[1..]);
    }
  }

  /** `s.split(/[\s,，。]+/)`: the maximal separator-free pieces of `s`, in
      order. A separator run at the very start or end yields an empty first or
      last piece, and the empty string splits into one empty piece. */
  function Split(s: string): (r: seq<string>)
    ensures |r| >= 1
    decreases |s|
  {
    if s == [] then [""]
    else if IsSeparator(s[0]) then [""] + Split(DropSeparators(s))
    else
      var rest := Split(s[1..]);
      [[s[0]] + rest[0]] + rest[1..]
  }

  /** A text that ends in a separator splits into at least two pieces, the
      last of them empty. */
  lemma {:induction false} SplitTrailingSeparator(s: string)
    requires s != [] && IsSeparator(s[|s| - 1])
    ensures |Split(s)| >= 2 && Split(s)[|Split(s)| - 1] == []
    decreases |s|
  {
    if IsSeparator(s[0]) {
      var d := DropSeparators(s);
      if d != [] {
        DropSeparatorsSuffix(s);
        assert d[|d| - 1] == s[|s| - 1];
        SplitTrailingSeparator(d);
      }
    } else {
      SplitTrailingSeparator(s[1..]);
    }
  }

  /** `s` with every separator removed. */
  function Unseparated(s: string): (r: string)
    ensures HasNoSeparator(r)
    ensures |r| <= |s|
  {
    if s == [] then []
    else if IsSeparator(s[0]) then Unseparated(s[1..])
    else [s[0]] + Unseparated(s[1..])
  }

  /** The concatenation of a list of strings. */
  function Concat(ts: seq<string>): (r: string)
  {
    if ts == [] then [] else ts[0] + Concat(ts[1..])
  }

  lemma {:induction false} UnseparatedDropsRun(s: string)
    ensures Unseparated(DropSeparators(s)) == Unseparated(s)
    decreases |s|
  {
    if s != [] && IsSeparator(s[0]) {
      UnseparatedDropsRun(s[1..]);
    }
  }

  /** No piece of a split holds a separator. */
  lemma {:induction false} SplitPiecesUnseparated(s: string)
    ensures forall k | k in Split(s) :: HasNoSeparator(k)
    decreases |s|
  {
    if s == [] {
    } else if IsSeparator(s[0]) {
      SplitPiecesUnseparated(DropSeparators(s));
    } else {
      var rest := Split(s[1..]);
      SplitPiecesUnseparated(s[1..]);
      forall k | k in Split(s) ensures HasNoSeparator(k) {
        if k == [s[0]] + rest[0] {
          assert rest[0] in rest;
        } else {
          assert k in rest;
        }
      }
    }
  }

  /** Every piece of a split but the first and the last is non-empty. */
  lemma {:induction false} SplitPiecesInnerNonEmpty(s: string)
    ensures forall i | 0 < i < |Split(s)| - 1 :: Split(s)[i] != []
    decreases |s|
  {
    if s == [] {
    } else if IsSeparator(s[0]) {
      var d := DropSeparators(s);
      SplitPiecesInnerNonEmpty(d);
      if d != [] {
        SplitHead(d);
      }
    } else {
      var rest := Split(s[1..]);
      SplitPiecesInnerNonEmpty(s[1..]);
      var r := Split(s);
      forall i | 0 < i < |r| - 1 ensures r[i] != [] {
        assert r[i] == rest[i];
      }
    }
  }

  /** The pieces of a split put together give back the input without its
      separators: nothing is lost or invented. */
  lemma {:induction false} SplitPiecesConcat(s: string)
    ensures Concat(Split(s)) == Unseparated(s)
    decreases |s|
  {
    if s == [] {
    } else if IsSeparator(s[0]) {
      var d := DropSeparators(s);
      SplitPiecesConcat(d);
      UnseparatedDropsRun(s);
      assert Concat(Split(s)) == "" + Concat(Split(d));
    } else {
      var rest := Split(s[1..]);
      SplitPiecesConcat(s[1..]);
      calc {
        Concat(Split(s));
        ([s[0]] + rest[0]) + Concat(rest[1..]);
        { assert rest == [rest[0]] + rest[1..]; }
        [s[0]] + Concat(rest);
      }
    }
  }

  /** A split of a string that does not start with a separator does not start
      with an empty piece, unless the string itself is empty. */
  lemma {:induction false} SplitHead(s: string)
    requires s != [] && !IsSeparator(s[0])
    ensures Split(s)[0] != []
  {
  }

  /** A separator-free string is a single piece. */
  lemma {:induction false} SplitOfToken(t: string)
    requires HasNoSeparator(t)
    ensures Split(t) == [t]
    decreases |t|
  {
    if t != [] {
      assert t[0] in t;
      assert HasNoSeparator(t[1..]) by {
        forall c | c in t[1..] ensures !IsSeparator(c) { assert c in t; }
      }
      SplitOfToken(t[1..]);
      assert [t[0]] + t[1..] == t;
    }
  }

  /** A whole run of separators is dropped, and nothing after it. */
  lemma {:induction false} DropSeparatorsRun(run: string, rest: string)
    requires forall c | c in run :: IsSeparator(c)
    requires rest == [] || !IsSeparator(rest[0])
    ensures DropSeparators(run + rest) == rest
    decreases |run|
  {
    if run == [] {
      assert run + rest == rest;
    } else {
      assert run[0] in run;
      forall c | c in run[1..] ensures IsSeparator(c) { assert c in run; }
      assert (run + rest)[1..] == run[1..] + rest;
      DropSeparatorsRun(run[1..], rest);
    }
  }

  /** A piece, a run of separators of any length and then a string that does
      not start with a separator: the piece comes out first and the rest is
      split on its own, so the whole run counts as one separator. */
  lemma {:induction false} SplitAfterToken(t: string, run: string, rest: string)
    requires HasNoSeparator(t)
    requires run != [] && forall c | c in run :: IsSeparator(c)
    requires rest == [] || !IsSeparator(rest[0])
    ensures Split(t + run + rest) == [t] + Split(rest)
    decreases |t|
  {
    if t == [] {
      assert t + run + rest == run + rest;
      assert run[0] in run;
      DropSeparatorsRun(run, rest);
    } else {
      assert t[0] in t;
      assert HasNoSeparator(t[1..]) by {
        forall c | c in t[1..] ensures !IsSeparator(c) { assert c in t; }
      }
      SplitAfterToken(t[1..], run, rest);
      assert (t + run + rest)[1..] == t[1..] + run + rest;
      assert [t[0]] + t[1..] == t;
    }
  }

  // ---------------------------------------------------------------------
  // Writing tokens back with separators
  // ---------------------------------------------------------------------

  /** `ts[0] + [seps[0]] + ts[1] + ... + ts[|ts| - 1]`. */
  function Interleave(ts: seq<string>, seps: seq<char>): (r: string)
    requires |ts| >= 1 && |seps| == |ts| - 1
    ensures |ts| == 1 ==> r == ts[0]
    ensures |r| >= |seps|
    decreases |ts|
  {
    if |ts| == 1 then ts[0] else ts[0] + [seps[0]] + Interleave(ts[1..], seps[1..])
  }

  /** A character found in no token and no separator is not in the text. */
  lemma {:induction false} InterleaveAvoids(ts: seq<string>, seps: seq<char>, c: char)
    requires |ts| >= 1 && |seps| == |ts| - 1
    requires c !in seps && forall t | t in ts :: c !in t
    ensures c !in Interleave(ts, seps)
    decreases |ts|
  {
    if |ts| > 1 {
      assert ts[0] in ts;
      forall t | t in ts[1..] ensures c !in t { assert t in ts; }
      InterleaveAvoids(ts[1..], seps[1..], c);
    }
  }

  /** What occurs in the first token occurs in the text. */
  lemma InterleaveIncludesHead(ts: seq<string>, seps: seq<char>, p: string)
    requires |ts| >= 1 && |seps| == |ts| - 1 && Includes(ts[0], p)
    ensures Includes(Interleave(ts, seps), p)
  {
    if |ts| > 1 {
      var s := Interleave(ts, seps);
      assert s[..|ts[0]|] == ts[0];
      var i :| 0 <= i <= |ts[0]| - |p| && OccursAt(ts[0], p, i);
      assert s[i..i + |p|] == ts[0][i..i + |p|];
      assert OccursAt(s, p, i);
    }
  }

  /** Tokens that `Split` gives back unchanged once interleaved: single
      separators between them, no separator inside any of them, and no empty
      token except the first or the last (an empty one in the middle would
      merge two separators into one run). */
  predicate Splittable(ts: seq<string>, seps: seq<char>) {
    && |ts| >= 1 && |seps| == |ts| - 1
    && (forall c | c in seps :: IsSeparator(c))
    && (forall t | t in ts :: HasNoSeparator(t))
    && (forall i | 0 < i < |ts| - 1 :: ts[i] != [])
  }

  /** The round trip: splitting interleaved tokens gives the tokens back. */
  lemma {:induction false} SplitInterleave(ts: seq<string>, seps: seq<char>)
    requires Splittable(ts, seps)
    ensures Split(Interleave(ts, seps)) == ts
    decreases |ts|
  {
    assert ts[0] in ts;
    if |ts| == 1 {
      SplitOfToken(ts[0]);
    } else {
      var rest := Interleave(ts[1..], seps[1..]);
      assert Splittable(ts[1..], seps[1..]) by {
        forall c | c in seps[1..] ensures IsSeparator(c) { assert c in seps; }
        forall t | t in ts[1..] ensures HasNoSeparator(t) { assert t in ts; }
        forall i | 0 < i < |ts[1..]| - 1 ensures ts[1..][i] != [] { assert ts[1..][i] == ts[i + 1]; }
      }
      SplitInterleave(ts[1..], seps[1..]);
      assert seps[0] in seps;
      assert ts[1] in ts;
      if |ts| == 2 {
        assert rest == ts[1];
      } else {
        InterleaveHead(ts[1..], seps[1..]);
      }
      assert rest == [] || !IsSeparator(rest[0]);
      SplitAfterToken(ts[0], [seps[0]], rest);
      assert [ts[0]] + ts[1..] == ts;
    }
  }

  /** An interleaving starts with its first token when that one is not empty. */
  lemma {:induction false} InterleaveHead(ts: seq<string>, seps: seq<char>)
    requires |ts| >= 1 && |seps| == |ts| - 1 && ts[0] != []
    ensures Interleave(ts, seps) != [] && Interleave(ts, seps)[0] == ts[0][0]
  {
  }

  /** Lower-casing an interleaving lower-cases each token and keeps the
      separators, none of which is an upper-case letter. */
  lemma {:induction false} LowerInterleave(ts: seq<string>, seps: seq<char>)
    requires |ts| >= 1 && |seps| == |ts| - 1
    requires forall c | c in seps :: IsSeparator(c)
    ensures Lower(Interleave(ts, seps)) == Interleave(LowerEach(ts), seps)
    decreases |ts|
  {
    if |ts| > 1 {
      assert seps[0] in seps;
      forall c | c in seps[1..] ensures IsSeparator(c) { assert c in seps; }
      LowerInterleave(ts[1..], seps[1..]);
      LowerAppend(ts[0] + [seps[0]], Interleave(ts[1..], seps[1..]));
      LowerAppend(ts[0], [seps[0]]);
      assert LowerEach(ts)[1..] == LowerEach(ts[1..]);
    }
  }

  /** Lower-case every string of a list. */
  function LowerEach(ts: seq<string>): (r: seq<string>)
    ensures |r| == |ts|
    ensures forall i | 0 <= i < |ts| :: r[i] == Lower(ts[i])
  {
    seq(|ts|, i requires 0 <= i < |ts| => Lower(ts[i]))
  }

  /** Lower-casing never creates a separator nor empties a string, so
      splittable tokens stay splittable once lower-cased. */
  lemma LowerKeepsSplittable(ts: seq<string>, seps: seq<char>)
    requires Splittable(ts, seps)
    ensures Splittable(LowerEach(ts), seps)
  {
    var lts := LowerEach(ts);
    forall t | t in lts ensures HasNoSeparator(t) {
      var i :| 0 <= i < |lts| && lts[i] == t;
      assert ts[i] in ts;
      forall c | c in t ensures !IsSeparator(c) {
        var j :| 0 <= j < |t| && t[j] == c;
        assert ts[i][j] in ts[i];
      }
    }
  }

  /** The keywords of an interleaved text: its lower-cased tokens, in order. */
  lemma SplitLowerInterleave(ts: seq<string>, seps: seq<char>)
    requires Splittable(ts, seps)
    ensures Split(Lower(Interleave(ts, seps))) == LowerEach(ts)
  {
    LowerInterleave(ts, seps);
    LowerKeepsSplittable(ts, seps);
    SplitInterleave(LowerEach(ts), seps);
  }
}
