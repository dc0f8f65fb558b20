/** The JavaScript string operations the ingestion pipeline relies on:
    `trim`, `split` on one character, `includes`, `startsWith`, and the two
    `replace` forms it uses (every character of a class, the first occurrence
    of one character). Strings are sequences of code points. */
module Text {
  import opened Seqs

  /** JavaScript's WhiteSpace and LineTerminator code points: what `trim`,
      `parseFloat` and the regular-expression class `\s` skip. */
  predicate IsSpace(c: char) {
    || c == '\t' || c == '\n' || c == '\U{000B}' || c == '\U{000C}' || c == '\r'
    || c == ' ' || c == '\U{00A0}' || c == '\U{1680}' || ('\U{2000}' <= c <= '\U{200A}')
    || c == '\U{2028}' || c == '\U{2029}' || c == '\U{202F}' || c == '\U{205F}'
    || c == '\U{3000}' || c == '\U{FEFF}'
  }

  /** The regular-expression class `\d` (no Unicode flag): ASCII digits only. */
  predicate IsDigit(c: char) {
    '0' <= c <= '9'
  }

  predicate AllSpace(s: string) {
    forall i | 0 <= i < |s| :: IsSpace(s[i])
  }

  /** `s.startsWith(prefix)`: the first `|prefix|` characters of `s` are
      those of `prefix`, one by one. */
  function StartsWith(s: string, prefix: string): (b: bool)
    ensures b <==> |prefix| <= |s| && forall i | 0 <= i < |prefix| :: s[i] == prefix[i]
  {
    |prefix| <= |s| && s[..|prefix|] == prefix
  }

  /** `sub` occurs in `s` starting at position `i`. */
  predicate OccursAt(s: string, sub: string, i: nat) {
    i + |sub| <= |s| && s[i..i + |sub|] == sub
  }

  /** `s.includes(sub)`, as a scan over the start positions of `s`; it finds
      `sub` exactly when `sub` occurs somewhere in `s`. */
  function Contains(s: string, sub: string): (b: bool)
    ensures b <==> exists i: nat :: OccursAt(s, sub, i)
    decreases |s|
  {
    if s == [] then
      assert (exists i: nat :: OccursAt(s, sub, i)) <==> sub == [] by {
        if sub == [] { assert OccursAt(s, sub, 0); }
      }
      sub == []
    else
      var rest := Contains(s[1..], sub);
      assert (StartsWith(s, sub) || rest) <==> exists i: nat :: OccursAt(s, sub, i) by {
        if StartsWith(s, sub) {
          assert s[..|sub|] == s[0..0 + |sub|];
          assert OccursAt(s, sub, 0);
        }
        if rest {
          var i: nat :| OccursAt(s[1..], sub, i);
          assert s[1..][i..i + |sub|] == s[i + 1..i + 1 + |sub|];
          assert OccursAt(s, sub, i + 1);
        }
        if exists i: nat :: OccursAt(s, sub, i) {
          var i: nat :| OccursAt(s, sub, i);
          if i > 0 {
            assert s[1..][i - 1..i - 1 + |sub|] == s[i..i + |sub|];
            assert OccursAt(s[1..], sub, i - 1);
          } else {
            assert StartsWith(s, sub);
          }
        }
      }
      StartsWith(s, sub) || rest
  }

  /** `s.trimEnd()`: drops the trailing white space. */
  function TrimEnd(s: string): (r: string)
    ensures |r| <= |s| && r == s[..|r|]
    ensures AllSpace(s[|r|..])
    ensures r == [] || !IsSpace(r[|r| - 1])
  {
    if s != [] && IsSpace(s[|s| - 1]) then TrimEnd(s[..|s| - 1]) else s
  }

  /** The length of the run of white space `s` starts with. */
  function SpaceRun(s: string): (n: nat)
    ensures n <= |s|
    ensures AllSpace(s[..n])
    ensures n == |s| || !IsSpace(s[n])
  {
    if s != [] && IsSpace(s[0]) then
      var n := 1 + SpaceRun(s[1..]);
      assert s[..n] == [s[0]] + s[1..][..n - 1];
      n
    else 0
  }

  /** `s.trimStart()`: drops the leading white-space run. */
  function TrimStart(s: string): (r: string)
    ensures |r| <= |s| && r == s[|s| - |r|..]
    ensures AllSpace(s[..|s| - |r|])
    ensures r == [] || !IsSpace(r[0])
  {
    s[SpaceRun(s)..]
  }

  /** `s.trim()`: the text between the leading white-space run and the
      trailing one; it is empty exactly when `s` is all white space. */
  function Trim(s: string): (r: string)
    ensures |r| <= |s| - SpaceRun(s)
    ensures OccursAt(s, r, SpaceRun(s))
    ensures AllSpace(s[SpaceRun(s) + |r|..])
    ensures r == [] <==> AllSpace(s)
    ensures r != [] ==> !IsSpace(r[0]) && !IsSpace(r[|r| - 1])
  {
    var k := SpaceRun(s);
    var t := TrimStart(s);
    var r := TrimEnd(t);
    TrimBothEnds(s, k, t, r);
    r
  }

  /** Dropping the leading white space and then the trailing white space
      leaves the text between the two runs. */
  lemma TrimBothEnds(s: string, k: nat, t: string, r: string)
    requires k <= |s| && t == s[k..] && AllSpace(s[..k])
    requires t == [] || !IsSpace(t[0])
    requires |r| <= |t| && r == t[..|r|] && AllSpace(t[|r|..])
    requires r == [] || !IsSpace(r[|r| - 1])
    ensures |r| <= |s| - k
    ensures OccursAt(s, r, k)
    ensures AllSpace(s[k + |r|..])
    ensures r == [] <==> AllSpace(s)
    ensures r != [] ==> !IsSpace(r[0]) && !IsSpace(r[|r| - 1])
  {
    assert s[k + |r|..] == t[|r|..];
    if r == [] {
      assert t[|r|..] == t;
      assert s[..k] == s;
    } else {
      assert r[0] == t[0];
      assert !AllSpace(s) by { assert s[k] == t[0]; }
    }
  }

  /** `s.split(sep)` for a one-character separator: the pieces between the
      separators, in order; the empty string gives one empty piece. */
  function Split(s: string, sep: char): (r: seq<string>)
    ensures |r| >= 1
    ensures forall i | 0 <= i < |r| :: sep !in r[i]
  {
    if s == [] then [[]]
    else
      var rest := Split(s[1..], sep);
      if s[0] == sep then [[]] + rest
      else [[s[0]] + rest[0]] + rest[1..]
  }

  /** `parts.join(sep)`: the inverse of `Split`. */
  function Join(parts: seq<string>, sep: char): string
    requires |parts| >= 1
  {
    if |parts| == 1 then parts[0] else parts[0] + [sep] + Join(parts[1..], sep)
  }

  lemma {:induction false} JoinSplit(s: string, sep: char)
    ensures Join(Split(s, sep), sep) == s
  {
    if s != [] {
      JoinSplit(s[1..], sep);
      var rest := Split(s[1..], sep);
      if s[0] == sep {
        assert Split(s, sep)[1..] == rest;
      } else {
        var r := Split(s, sep);
        if |rest| == 1 {
          assert r == [[s[0]] + rest[0]];
        } else {
          assert r[1..] == rest[1..];
        }
      }
    }
  }

  lemma {:induction false} SplitJoin(parts: seq<string>, sep: char)
    requires |parts| >= 1
    requires forall i | 0 <= i < |parts| :: sep !in parts[i]
    ensures Split(Join(parts, sep), sep) == parts
    decreases |parts|, |parts[0]|
  {
    if parts[0] != [] {
      var p := parts[0];
      var tail := [p[1..]] + parts[1..];
      assert Join(parts, sep) == [p[0]] + Join(tail, sep) by {
        if |parts| > 1 {
          assert Join(tail, sep) == p[1..] + [sep] + Join(parts[1..], sep) by {
            assert tail[1..] == parts[1..];
          }
        }
      }
      SplitJoin(tail, sep);
      assert ([p[0]] + Join(tail, sep))[1..] == Join(tail, sep);
      assert [p[0]] + p[1..] == p;
    } else if |parts| > 1 {
      SplitJoin(parts[1..], sep);
      assert ([sep] + Join(parts[1..], sep))[1..] == Join(parts[1..], sep);
    }
  }

  /** Splitting a concatenation around one separator splits each side. */
  lemma {:induction false} SplitConcat(a: string, b: string, sep: char)
    ensures Split(a + [sep] + b, sep) == Split(a, sep) + Split(b, sep)
    decreases |a|
  {
    if a == [] {
      assert a + [sep] + b == [sep] + b;
      SplitCons(sep, b, sep);
    } else {
      SplitConcat(a[1..], b, sep);
      SplitConcatStep(a[0], a[1..], b, sep);
      assert [a[0]] + a[1..] == a;
      assert [a[0]] + (a[1..] + [sep] + b) == a + [sep] + b;
    }
  }

  /** The inductive step of `SplitConcat`: one more character in front. */
  lemma SplitConcatStep(c: char, t: string, b: string, sep: char)
    requires Split(t + [sep] + b, sep) == Split(t, sep) + Split(b, sep)
    ensures Split([c] + (t + [sep] + b), sep) == Split([c] + t, sep) + Split(b, sep)
  {
    SplitCons(c, t + [sep] + b, sep);
    SplitCons(c, t, sep);
    if c == sep {
      AppendAssoc([[]], Split(t, sep), Split(b, sep));
    } else {
      GlueAssoc([c], Split(t, sep), Split(b, sep));
    }
  }

  /** Glueing a prefix onto the first piece commutes with appending pieces. */
  lemma GlueAssoc(p: string, left: seq<string>, right: seq<string>)
    requires left != []
    ensures [p + (left + right)[0]] + (left + right)[1..] == ([p + left[0]] + left[1..]) + right
  {
    var both := left + right;
    assert both[0] == left[0];
    assert both[1..] == left[1..] + right;
    AppendAssoc([p + left[0]], left[1..], right);
  }

  /** One step of `Split`: the first character either ends the first piece
      or joins it. */
  lemma SplitCons(c: char, t: string, sep: char)
    ensures c == sep ==> Split([c] + t, sep) == [[]] + Split(t, sep)
    ensures c != sep ==> Split([c] + t, sep) == [[c] + Split(t, sep)[0]] + Split(t, sep)[1..]
  {
    assert ([c] + t)[0] == c && ([c] + t)[1..] == t;
  }

  function Count(s: string, c: char): nat {
    if s == [] then 0 else (if s[0] == c then 1 else 0) + Count(s[1..], c)
  }

  lemma {:induction false} SplitLength(s: string, sep: char)
    ensures |Split(s, sep)| == Count(s, sep) + 1
  {
    if s != [] { SplitLength(s[1..], sep); }
  }

  /** `s.replace(/[...]/g, '')`: every character of `drop` removed, the rest
      kept in order. */
  function RemoveAll(s: string, drop: set<char>): (r: string)
    ensures |r| <= |s|
    ensures forall i | 0 <= i < |r| :: r[i] !in drop && r[i] in s
  {
    if s == [] then []
    else if s[0] in drop then RemoveAll(s[1..], drop)
    else [s[0]] + RemoveAll(s[1..], drop)
  }

  lemma {:induction false} RemoveAllConcat(a: string, b: string, drop: set<char>)
    ensures RemoveAll(a + b, drop) == RemoveAll(a, drop) + RemoveAll(b, drop)
  {
    if a != [] {
      var c := a[0];
      var kept: string := if c in drop then [] else [c];
      RemoveAllConcat(a[1..], b, drop);
      assert a + b == [c] + (a[1..] + b) by {
        AppendAssoc([c], a[1..], b);
        assert [c] + a[1..] == a;
      }
      RemoveAllCons(c, a[1..] + b, drop);
      RemoveAllCons(c, a[1..], drop);
      assert a == [c] + a[1..];
      AppendAssoc(kept, RemoveAll(a[1..], drop), RemoveAll(b, drop));
    } else {
      assert a + b == b;
    }
  }

  /** One step of `RemoveAll`: the first character is dropped or kept. */
  lemma RemoveAllCons(c: char, t: string, drop: set<char>)
    ensures RemoveAll([c] + t, drop) == (if c in drop then [] else [c]) + RemoveAll(t, drop)
  {
    assert ([c] + t)[0] == c && ([c] + t)[1..] == t;
  }

  lemma {:induction false} RemoveAllKeeps(s: string, drop: set<char>)
    requires forall i | 0 <= i < |s| :: s[i] !in drop
    ensures RemoveAll(s, drop) == s
  {
    if s != [] { RemoveAllKeeps(s[1..], drop); }
  }

  /** `s.replace(c, '')` with a string pattern: only the first occurrence of
      `c` is removed. */
  function RemoveFirst(s: string, c: char): (r: string)
    ensures c !in s ==> r == s
    ensures c in s ==> |r| == |s| - 1
    ensures forall i | 0 <= i < |r| :: r[i] in s
  {
    if s == [] then []
    else if s[0] == c then s[1..]
    else [s[0]] + RemoveFirst(s[1..], c)
  }

  lemma {:induction false} RemoveFirstAt(a: string, b: string, c: char)
    requires c !in a
    ensures RemoveFirst(a + [c] + b, c) == a + b
  {
    var s := a + [c] + b;
    if a == [] {
      assert s[0] == c && s[1..] == b;
    } else {
      RemoveFirstAt(a[1..], b, c);
      assert s[0] == a[0] && s[0] != c && s[1..] == a[1..] + [c] + b;
      AppendAssoc([a[0]], a[1..], b);
      assert [a[0]] + a[1..] == a;
    }
  }

}
