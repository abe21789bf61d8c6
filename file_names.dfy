/**
  The string side of collision-resistant file naming in HouseService:
  Java's `String.split("\\.")` (limit 0), `String.join(".", ...)`, and the
  renaming that replaces every segment but the last with a fresh token.

  Fresh tokens (the `UUID.randomUUID()` strings of the service) are supplied
  by the caller as a sequence, so every function here is deterministic.
 */
module FileNames {

  /** The separator that `split` and `join` use. */
  const Dot: char := '.'

  /** A string free of the separator: what one segment of a split is. */
  predicate DotFree(s: string) {
    Dot !in s
  }

  /** Every string of `segs` is free of the separator. */
  predicate AllDotFree(segs: seq<string>) {
    forall i :: 0 <= i < |segs| ==> DotFree(segs[i])
  }

  /** The segments of `s` between separators, empty ones included. */
  function SplitAll(s: string): (r: seq<string>)
    ensures |r| >= 1
  {
    if s == [] then [[]]
    else
      var rest := SplitAll(s[1..]);
      if s[0] == Dot then [[]] + rest
      else [[s[0]] + rest[0]] + rest[1..]
  }

  /** `String.join(".", segs)`: the segments with one separator between neighbours. */
  function Join(segs: seq<string>): string {
    if |segs| == 0 then []
    else if |segs| == 1 then segs[0]
    else segs[0] + [Dot] + Join(segs[1..])
  }

  /** The trailing empty strings of `segs` removed, as `split` does with limit 0. */
  function DropTrailingEmpty(segs: seq<string>): (r: seq<string>)
    ensures r <= segs
    ensures r == [] || r[|r| - 1] != []
    ensures forall i :: |r| <= i < |segs| ==> segs[i] == []
  {
    if |segs| == 0 then []
    else if segs[|segs| - 1] == [] then DropTrailingEmpty(segs[..|segs| - 1])
    else segs
  }

  /**
    `s.split("\\.")`: a string without separator is its own single segment
    (even the empty string); otherwise all segments with the trailing empty
    ones dropped, so `"photo."` has one segment and `"..."` has none.
   */
  function JavaSplit(s: string): (r: seq<string>)
    ensures AllDotFree(r)
    ensures DotFree(s) ==> r == [s]
    ensures !DotFree(s) ==> r == [] || r[|r| - 1] != []
  {
    if DotFree(s) then [s]
    else
      SplitAllDotFree(s);
      DropTrailingEmpty(SplitAll(s))
  }

  /** Enough fresh tokens to rename every segment of `name` but the last. */
  predicate EnoughTokens(name: string, tokens: seq<string>) {
    |JavaSplit(name)| <= |tokens| + 1
  }

  /** Segment `i` replaced by token `i` for every `i` but the last one. */
  function Renamed(segs: seq<string>, tokens: seq<string>): (r: seq<string>)
    requires |segs| <= |tokens| + 1
    ensures |r| == |segs|
    ensures forall i :: 0 <= i < |r| - 1 ==> r[i] == tokens[i]
    ensures |r| > 0 ==> r[|r| - 1] == segs[|segs| - 1]
  {
    seq(|segs|, i requires 0 <= i < |segs| => if i < |segs| - 1 then tokens[i] else segs[i])
  }

  /** The name `generateNewFileName` produces from `name` and the given tokens. */
  function NewFileName(name: string, tokens: seq<string>): string
    requires EnoughTokens(name, tokens)
  {
    Join(Renamed(JavaSplit(name), tokens))
  }

  // ---------------------------------------------------------------------
  // split and join
  // ---------------------------------------------------------------------

  /** Joining a segment in front of at least one more puts a separator after it. */
  lemma JoinCons(head: string, tail: seq<string>)
    requires |tail| >= 1
    ensures Join([head] + tail) == head + [Dot] + Join(tail)
  {
  }

  /** Joining a split gives back the string. */
  lemma {:induction false} JoinSplitAll(s: string)
    ensures Join(SplitAll(s)) == s
  {
    if s != [] {
      var rest := SplitAll(s[1..]);
      JoinSplitAll(s[1..]);
      assert s == [s[0]] + s[1..];
      if s[0] == Dot {
        JoinCons([], rest);
      } else if |rest| == 1 {
        assert SplitAll(s) == [[s[0]] + rest[0]];
      } else {
        var head := [s[0]] + rest[0];
        assert SplitAll(s) == [head] + rest[1..];
        JoinCons(head, rest[1..]);
        assert rest == [rest[0]] + rest[1..];
        JoinCons(rest[0], rest[1..]);
      }
    }
  }

  /** No segment of a split holds a separator. */
  lemma {:induction false} SplitAllDotFree(s: string)
    ensures AllDotFree(SplitAll(s))
  {
    if s != [] {
      SplitAllDotFree(s[1..]);
      var rest := SplitAll(s[1..]);
      if s[0] != Dot {
        assert DotFree(rest[0]);
        assert DotFree([s[0]] + rest[0]);
      }
    }
  }

  /** A separator-free prefix followed by a separator ends the first segment. */
  lemma {:induction false} SplitAllAfterSegment(a: string, t: string)
    requires DotFree(a)
    ensures SplitAll(a + [Dot] + t) == [a] + SplitAll(t)
  {
    if a == [] {
      assert a + [Dot] + t == [Dot] + t;
      assert ([Dot] + t)[1..] == t;
    } else {
      assert (a + [Dot] + t)[1..] == a[1..] + [Dot] + t;
      SplitAllAfterSegment(a[1..], t);
      assert [a[0]] + a[1..] == a;
    }
  }

  /** Splitting a join of separator-free segments gives back the segments. */
  lemma {:induction false} SplitAllJoin(segs: seq<string>)
    requires |segs| >= 1
    requires AllDotFree(segs)
    ensures SplitAll(Join(segs)) == segs
  {
    if |segs| == 1 {
      SplitAllOfDotFree(segs[0]);
    } else {
      assert DotFree(segs[0]);
      SplitAllJoin(segs[1..]);
      SplitAllAfterSegment(segs[0], Join(segs[1..]));
      assert [segs[0]] + segs[1..] == segs;
    }
  }

  /** A separator-free string is one segment. */
  lemma {:induction false} SplitAllOfDotFree(s: string)
    requires DotFree(s)
    ensures SplitAll(s) == [s]
  {
    if s != [] {
      SplitAllOfDotFree(s[1..]);
      assert [s[0]] + s[1..] == s;
    }
  }

  /** Joining one more segment puts a separator and that segment at the end. */
  lemma {:induction false} JoinAppend(p: seq<string>, x: string)
    requires |p| >= 1
    ensures Join(p + [x]) == Join(p) + [Dot] + x
  {
    if |p| > 1 {
      assert (p + [x])[1..] == p[1..] + [x];
      JoinAppend(p[1..], x);
    }
  }

  /** A join of two or more segments holds a separator. */
  lemma JoinHasDot(segs: seq<string>)
    requires |segs| >= 2
    ensures !DotFree(Join(segs))
  {
  }

  /**
    What `split` leaves out are separators at the end: the join of the
    segments is a prefix of `s` and the rest of `s` is all separators.
   */
  lemma {:induction false} JavaSplitLosesOnlyTrailingDots(s: string)
    ensures Join(JavaSplit(s)) <= s
    ensures forall i :: |Join(JavaSplit(s))| <= i < |s| ==> s[i] == Dot
  {
    if !DotFree(s) {
      JoinSplitAll(s);
      DropTrailingEmptyJoin(SplitAll(s));
    }
  }

  lemma {:induction false} DropTrailingEmptyJoin(segs: seq<string>)
    requires |segs| >= 1
    ensures Join(DropTrailingEmpty(segs)) <= Join(segs)
    ensures forall i :: |Join(DropTrailingEmpty(segs))| <= i < |Join(segs)| ==> Join(segs)[i] == Dot
  {
    var n := |segs|;
    if segs[n - 1] == [] {
      var init := segs[..n - 1];
      if n == 1 {
        assert segs == [[]];
      } else {
        assert segs == init + [[]];
        JoinAppend(init, []);
        DropTrailingEmptyJoin(init);
      }
    }
  }

  /** Dropping trailing empty strings changes nothing when the last one is not empty. */
  lemma DropTrailingEmptyKeeps(segs: seq<string>)
    requires |segs| >= 1 && segs[|segs| - 1] != []
    ensures DropTrailingEmpty(segs) == segs
  {
  }

  // ---------------------------------------------------------------------
  // properties of the generated name
  // ---------------------------------------------------------------------

  /** A name without a separator is returned unchanged: the loop renames nothing. */
  lemma NoDotUnchanged(name: string, tokens: seq<string>)
    requires DotFree(name)
    ensures EnoughTokens(name, tokens)
    ensures NewFileName(name, tokens) == name
  {
  }

  /**
    With two or more segments the generated name is the tokens, joined,
    then a separator and the last segment of `name` (its extension).
   */
  lemma {:induction false} KeepsExtension(name: string, tokens: seq<string>)
    requires EnoughTokens(name, tokens)
    requires |JavaSplit(name)| >= 2
    ensures var segs := JavaSplit(name);
            var ext := segs[|segs| - 1];
            NewFileName(name, tokens) == Join(tokens[..|segs| - 1]) + [Dot] + ext
  {
    var segs := JavaSplit(name);
    var n := |segs|;
    var r := Renamed(segs, tokens);
    assert r == tokens[..n - 1] + [segs[n - 1]];
    JoinAppend(tokens[..n - 1], segs[n - 1]);
  }

  /** The extension survives at the end of the generated name, after a separator. */
  lemma EndsWithExtension(name: string, tokens: seq<string>)
    requires EnoughTokens(name, tokens)
    requires |JavaSplit(name)| >= 2
    ensures var segs := JavaSplit(name);
            var ext := segs[|segs| - 1];
            var r := NewFileName(name, tokens);
            |r| > |ext| && r[|r| - |ext| - 1..] == [Dot] + ext
  {
    KeepsExtension(name, tokens);
    var segs := JavaSplit(name);
    var ext := segs[|segs| - 1];
    var front := Join(tokens[..|segs| - 1]);
    var r := NewFileName(name, tokens);
    assert r == front + ([Dot] + ext);
    assert r[|front|..] == [Dot] + ext;
  }

  /**
    With separator-free tokens, splitting the generated name gives the
    renamed segments: as many as `name` has, token `i` at position `i` and
    the extension last.
   */
  lemma {:induction false} ResplitRenamed(name: string, tokens: seq<string>)
    requires EnoughTokens(name, tokens)
    requires AllDotFree(tokens)
    requires |JavaSplit(name)| >= 1
    ensures JavaSplit(NewFileName(name, tokens)) == Renamed(JavaSplit(name), tokens)
  {
    var segs := JavaSplit(name);
    var r := Renamed(segs, tokens);
    var out := Join(r);
    assert AllDotFree(r) by {
      forall i | 0 <= i < |r| ensures DotFree(r[i]) {
        if i < |r| - 1 { assert DotFree(tokens[i]); } else { assert DotFree(segs[i]); }
      }
    }
    if |r| == 1 {
      assert out == r[0];
    } else {
      JoinHasDot(r);
      SplitAllJoin(r);
      assert !DotFree(name);
      DropTrailingEmptyKeeps(r);
    }
  }

  /** Consequence: the generated name splits into as many segments as `name`. */
  lemma SegmentCountPreserved(name: string, tokens: seq<string>)
    requires EnoughTokens(name, tokens)
    requires AllDotFree(tokens)
    requires |JavaSplit(name)| >= 1
    ensures |JavaSplit(NewFileName(name, tokens))| == |JavaSplit(name)|
  {
    ResplitRenamed(name, tokens);
  }

  /**
    Collision resistance: names with an extension that were given different
    first tokens come out different, whatever the original names were.
   */
  lemma FreshTokenFreshName(name1: string, tokens1: seq<string>, name2: string, tokens2: seq<string>)
    requires EnoughTokens(name1, tokens1) && AllDotFree(tokens1)
    requires EnoughTokens(name2, tokens2) && AllDotFree(tokens2)
    requires |JavaSplit(name1)| >= 2 && |JavaSplit(name2)| >= 2
    requires tokens1[0] != tokens2[0]
    ensures NewFileName(name1, tokens1) != NewFileName(name2, tokens2)
  {
    ResplitRenamed(name1, tokens1);
    ResplitRenamed(name2, tokens2);
    var r1 := Renamed(JavaSplit(name1), tokens1);
    var r2 := Renamed(JavaSplit(name2), tokens2);
    assert r1[0] == tokens1[0] && r2[0] == tokens2[0];
  }

  /** A string of separators only splits into one more segment than it has characters, all empty. */
  lemma {:induction false} SplitAllOfDots(s: string)
    requires forall i :: 0 <= i < |s| ==> s[i] == Dot
    ensures |SplitAll(s)| == |s| + 1
    ensures forall j :: 0 <= j < |SplitAll(s)| ==> SplitAll(s)[j] == []
  {
    if s != [] {
      SplitAllOfDots(s[1..]);
    }
  }

  /**
    The count is not kept for a name made only of separators: it splits
    into no segment, and the empty name it becomes splits into one.
   */
  lemma OnlyDotsGainsASegment(name: string, tokens: seq<string>)
    requires |name| > 0
    requires forall i :: 0 <= i < |name| ==> name[i] == Dot
    ensures JavaSplit(name) == []
    ensures EnoughTokens(name, tokens)
    ensures NewFileName(name, tokens) == []
    ensures JavaSplit(NewFileName(name, tokens)) == [[]]
  {
    SplitAllOfDots(name);
    assert name[0] == Dot;
  }

  // ---------------------------------------------------------------------
  // concrete names
  // ---------------------------------------------------------------------

  /**
    `"photo."` becomes `"photo"`: the trailing empty segment is dropped; an
    empty base gives `"."`, which becomes the empty name.
   */
  lemma TrailingDot(base: string, tokens: seq<string>)
    requires DotFree(base)
    ensures EnoughTokens(base + ".", tokens)
    ensures NewFileName(base + ".", tokens) == base
  {
    var name := base + [Dot];
    assert base + "." == name;
    if base == [] {
      OnlyDotsGainsASegment(name, tokens);
    } else {
      assert SplitAll(name) == [base, []] by {
        SplitAllAfterSegment(base, []);
        assert base + [Dot] + [] == name;
      }
      assert name[|base|] == Dot;
      assert [base, []][..1] == [base];
      DropTrailingEmptyKeeps([base]);
      assert JavaSplit(name) == [base];
      assert Renamed([base], tokens) == [base];
    }
  }

  /**
    A name with exactly one separator becomes the token, a separator and the
    extension: `"room.png"` becomes `t0 + ".png"`, and `".hidden"` (an empty
    base) becomes `t0 + ".hidden"`.
   */
  lemma OneDot(base: string, ext: string, t0: string)
    requires DotFree(base) && DotFree(ext) && ext != []
    ensures EnoughTokens(base + "." + ext, [t0])
    ensures NewFileName(base + "." + ext, [t0]) == t0 + "." + ext
  {
    var name := base + [Dot] + ext;
    assert base + "." + ext == name;
    assert SplitAll(name) == [base, ext] by {
      SplitAllOfDotFree(ext);
      SplitAllAfterSegment(base, ext);
    }
    assert name[|base|] == Dot;
    DropTrailingEmptyKeeps([base, ext]);
    KeepsExtension(name, [t0]);
    assert [t0][..1] == [t0];
  }

  /** Both segments before the extension of `a.b.ext` are renamed. */
  lemma TwoDots(a: string, b: string, ext: string, t0: string, t1: string)
    requires DotFree(a) && DotFree(b) && DotFree(ext) && ext != []
    ensures EnoughTokens(a + "." + b + "." + ext, [t0, t1])
    ensures NewFileName(a + "." + b + "." + ext, [t0, t1]) == t0 + "." + t1 + "." + ext
  {
    var name := a + [Dot] + (b + [Dot] + ext);
    assert a + "." + b + "." + ext == name;
    assert SplitAll(name) == [a, b, ext] by {
      SplitAllOfDotFree(ext);
      SplitAllAfterSegment(b, ext);
      SplitAllAfterSegment(a, b + [Dot] + ext);
    }
    assert name[|a|] == Dot;
    DropTrailingEmptyKeeps([a, b, ext]);
    assert JavaSplit(name) == [a, b, ext];
    KeepsExtension(name, [t0, t1]);
    assert [t0, t1][..2] == [t0, t1];
    assert Join([t0, t1]) == t0 + [Dot] + t1;
  }
}
