/** Directory search patterns: a greedy matcher that backtracks only to the last star. */
module Wildcard {

  /** Upper and lower case forms of one character are folded to one representative. */
  function Fold(fold: char -> char, s: string): (r: string)
    ensures |r| == |s| && forall i :: 0 <= i < |s| ==> r[i] == fold(s[i])
  {
    seq(|s|, i requires 0 <= i < |s| => fold(s[i]))
  }

  /** What a pattern means: '*' stands for any run of characters, '?' for any one, and every other
      character for itself. */
  predicate Glob(p: string, n: string)
    decreases |p| + |n|
  {
    if p == "" then n == ""
    else if p[0] == '*' then Glob(p[1..], n) || (n != "" && Glob(p, n[1..]))
    else n != "" && (p[0] == '?' || p[0] == n[0]) && Glob(p[1..], n[1..])
  }

  /** The DOS spellings of the three special characters. */
  function Spelling(c: char): char {
    if c == '<' then '*' else if c == '>' then '?' else if c == '"' then '.' else c
  }

  function Translate(pattern: string): (r: string)
    ensures |r| == |pattern| && forall i :: 0 <= i < |pattern| ==> r[i] == Spelling(pattern[i])
  {
    seq(|pattern|, i requires 0 <= i < |pattern| => Spelling(pattern[i]))
  }

  // ---- facts about the meaning

  /** A segment without stars consumes exactly its length. */
  lemma {:induction false} SegmentConsumes(p: string, n: string, m: nat)
    requires m <= |p| && '*' !in p[..m] && Glob(p, n)
    ensures m <= |n| && Glob(p[m..], n[m..])
    decreases m
  {
    if m > 0 {
      assert p[0] in p[..m];
      assert p[1..][..m - 1] == p[..m][1..];
      SegmentConsumes(p[1..], n[1..], m - 1);
      assert p[1..][m - 1..] == p[m..] && n[1..][m - 1..] == n[m..];
    }
  }

  /** A leading star absorbs any prefix. */
  lemma {:induction false} StarAbsorbs(p: string, n: string, k: nat)
    requires p != "" && p[0] == '*' && k <= |n| && Glob(p, n[k..])
    ensures Glob(p, n)
    decreases k
  {
    if k == 0 {
      assert n[0..] == n;
    } else {
      assert n[k - 1..][1..] == n[k..];
      StarAbsorbs(p, n, k - 1);
    }
  }

  /** What follows a star matches some suffix. */
  lemma {:induction false} StarLeaves(p: string, n: string) returns (j: nat)
    requires p != "" && p[0] == '*' && Glob(p, n)
    ensures j <= |n| && Glob(p[1..], n[j..])
    decreases |n|
  {
    if Glob(p[1..], n) {
      j := 0;
      assert n[0..] == n;
    } else {
      j := StarLeaves(p, n[1..]);
      assert n[1..][j..] == n[j + 1..];
      j := j + 1;
    }
  }

  /** Whatever an earlier star could still match by starting later, the text after its segment can
      match from a later place too. */
  lemma LaterStart(p: string, n: string, star: nat, start: nat, m: nat) returns (j: nat)
    requires star + 1 + m <= |p| && p[star] == '*' && '*' !in p[star + 1..star + 1 + m]
    requires start <= |n| && Glob(p[star..], n[start..])
    ensures start + m <= j <= |n| && Glob(p[star + 1 + m..], n[j..])
  {
    var k := StarLeaves(p[star..], n[start..]);
    assert p[star..][1..] == p[star + 1..] && n[start..][k..] == n[start + k..];
    assert p[star + 1..][..m] == p[star + 1..star + 1 + m];
    SegmentConsumes(p[star + 1..], n[start + k..], m);
    assert p[star + 1..][m..] == p[star + 1 + m..] && n[start + k..][m..] == n[start + k + m..];
    j := start + k + m;
  }

  /** The alternatives the matcher still has to consider. */
  ghost predicate Open(p: string, n: string, pi: nat, ni: nat, star: int, retry: nat)
    requires pi <= |p| && ni <= |n| && star < |p|
  {
    Glob(p[pi..], n[ni..]) || (0 <= star && retry < |n| && Glob(p[star..], n[retry + 1..]))
  }

  /** The matcher's place: since the last star it has read a segment without stars. */
  ghost predicate Placed(p: string, pi: nat, ni: nat, star: int, retry: nat) {
    Behind(p, pi, ni, star, retry) && (0 <= star ==> '*' !in p[star + 1..pi])
  }

  ghost predicate Behind(p: string, pi: nat, ni: nat, star: int, retry: nat) {
    0 <= star ==> star < pi <= |p| && p[star] == '*' && retry <= ni && pi - star - 1 == ni - retry
  }

  /** A new star makes the old one superfluous. */
  lemma NewStar(p: string, n: string, pi: nat, ni: nat, star: int, retry: nat)
    requires pi < |p| && p[pi] == '*' && ni < |n| && star < |p|
    ensures Open(p, n, pi + 1, ni, pi, ni) ==> Open(p, n, pi, ni, star, retry)
    ensures Placed(p, pi, ni, star, retry) ==> (Open(p, n, pi, ni, star, retry) ==> Open(p, n, pi + 1, ni, pi, ni))
  {
    assert p[pi..][1..] == p[pi + 1..] && n[ni..][1..] == n[ni + 1..];
    if Placed(p, pi, ni, star, retry) && 0 <= star && retry < |n| && Glob(p[star..], n[retry + 1..]) {
      var j := LaterStart(p, n, star, retry + 1, ni - retry);
      assert n[ni..][j - ni..] == n[j..];
      StarAbsorbs(p[pi..], n[ni..], j - ni);
    }
  }

  /** Once the name is used up an earlier star has nothing left to try. */
  lemma NameUsedUp(p: string, n: string, pi: nat, star: int, retry: nat)
    requires pi <= |p| && star < |p|
    ensures Glob(p[pi..], "") ==> Open(p, n, pi, |n|, star, retry)
    ensures Placed(p, pi, |n|, star, retry) ==> (Open(p, n, pi, |n|, star, retry) ==> Glob(p[pi..], ""))
  {
    assert n[|n|..] == "";
    if Placed(p, pi, |n|, star, retry) && 0 <= star && retry < |n| && Glob(p[star..], n[retry + 1..]) {
      var j := LaterStart(p, n, star, retry + 1, |n| - retry);
      assert false;
    }
  }

  lemma Mismatch(p: string, n: string, pi: nat, ni: nat, star: int, retry: nat)
    requires pi <= |p| && ni < |n| && star < |p| && Behind(p, pi, ni, star, retry)
    requires pi < |p| ==> p[pi] != '*' && p[pi] != '?' && p[pi] != n[ni]
    ensures star < 0 ==> !Open(p, n, pi, ni, star, retry)
    ensures 0 <= star ==> (Open(p, n, pi, ni, star, retry) <==> Open(p, n, star + 1, retry + 1, star, retry + 1))
  {
    assert n[ni..][0] == n[ni];
    if 0 <= star {
      assert p[star..][1..] == p[star + 1..];
      if retry + 1 < |n| {
        assert n[retry + 1..][1..] == n[retry + 2..];
      }
    }
  }

  /** A star read as a literal star is still a star's match: one character of its run. */
  lemma MatchOne(p: string, n: string, pi: nat, ni: nat, star: int, retry: nat)
    requires pi < |p| && ni < |n| && star < |p| && Behind(p, pi, ni, star, retry)
    requires p[pi] == '?' || p[pi] == n[ni]
    ensures Open(p, n, pi + 1, ni + 1, star, retry) ==> Open(p, n, pi, ni, star, retry)
    ensures p[pi] != '*' ==> (Open(p, n, pi, ni, star, retry) ==> Open(p, n, pi + 1, ni + 1, star, retry))
    ensures p[pi] != '*' && Placed(p, pi, ni, star, retry) ==> Placed(p, pi + 1, ni + 1, star, retry)
  {
    assert p[pi..][1..] == p[pi + 1..] && n[ni..][1..] == n[ni + 1..];
    if 0 <= star {
      assert p[star + 1..pi + 1] == p[star + 1..pi] + [p[pi]];
    }
  }

  method SkipStars(p: string, from: nat) returns (pi: nat)
    requires from <= |p|
    ensures from <= pi <= |p| && (Glob(p[from..], "") <==> pi == |p|)
  {
    pi := from;
    while pi < |p| && p[pi] == '*'
      invariant from <= pi <= |p|
      invariant Glob(p[from..], "") <==> Glob(p[pi..], "")
    {
      assert p[pi..][1..] == p[pi + 1..];
      pi := pi + 1;
    }
  }

  /** What the matcher answers from a place: it reads on, remembers a star, or goes back to the last one. */
  predicate Scan(p: string, n: string, pi: nat, ni: nat, star: int, retry: nat)
    requires pi <= |p| && retry <= ni <= |n| && -1 <= star < |p| && star < pi
    decreases |p| - star, |n| - retry, |n| - ni
  {
    if ni == |n| then Glob(p[pi..], "")
    else if pi < |p| && (p[pi] == '?' || p[pi] == n[ni]) then Scan(p, n, pi + 1, ni + 1, star, retry)
    else if pi < |p| && p[pi] == '*' then Scan(p, n, pi + 1, ni, pi, ni)
    else star >= 0 && Scan(p, n, star + 1, retry + 1, star, retry + 1)
  }

  predicate Greedy(p: string, n: string) {
    Scan(p, n, 0, 0, -1, 0)
  }

  lemma {:induction false} ScanExact(p: string, n: string, pi: nat, ni: nat, star: int, retry: nat)
    requires pi <= |p| && retry <= ni <= |n| && -1 <= star < |p| && star < pi && Behind(p, pi, ni, star, retry)
    ensures Scan(p, n, pi, ni, star, retry) ==> Open(p, n, pi, ni, star, retry)
    ensures '*' !in n && Placed(p, pi, ni, star, retry) && Open(p, n, pi, ni, star, retry) ==> Scan(p, n, pi, ni, star, retry)
    decreases |p| - star, |n| - retry, |n| - ni
  {
    if ni == |n| {
      NameUsedUp(p, n, pi, star, retry);
    } else if pi < |p| && (p[pi] == '?' || p[pi] == n[ni]) {
      MatchOne(p, n, pi, ni, star, retry);
      ScanExact(p, n, pi + 1, ni + 1, star, retry);
    } else if pi < |p| && p[pi] == '*' {
      NewStar(p, n, pi, ni, star, retry);
      ScanExact(p, n, pi + 1, ni, pi, ni);
    } else {
      Mismatch(p, n, pi, ni, star, retry);
      if star >= 0 {
        ScanExact(p, n, star + 1, retry + 1, star, retry + 1);
      }
    }
  }

  /** The matcher accepts only what the pattern means, and all of it unless the name itself holds a star. */
  lemma GreedyExact(p: string, n: string)
    ensures Greedy(p, n) ==> Glob(p, n)
    ensures '*' !in n && Glob(p, n) ==> Greedy(p, n)
  {
    assert p[0..] == p && n[0..] == n;
    ScanExact(p, n, 0, 0, -1, 0);
  }

  /** The loop with its four indices. */
  method GreedyMatch(p: string, n: string) returns (matched: bool)
    ensures matched == Greedy(p, n) && (matched ==> Glob(p, n)) && ('*' !in n && Glob(p, n) ==> matched)
  {
    var pi, ni: nat, star, retry: nat := 0, 0, -1, 0;
    GreedyExact(p, n);
    while ni < |n|
      invariant 0 <= pi <= |p| && retry <= ni <= |n| && -1 <= star < |p| && star < pi
      invariant Greedy(p, n) == Scan(p, n, pi, ni, star, retry)
      decreases |p| - star, |n| - retry, |n| - ni
    {
      if pi < |p| && (p[pi] == '?' || p[pi] == n[ni]) {
        pi, ni := pi + 1, ni + 1;
      } else if pi < |p| && p[pi] == '*' {
        star := pi;
        pi := pi + 1;
        retry := ni;
      } else if star >= 0 {
        retry := retry + 1;
        ni := retry;
        pi := star + 1;
      } else {
        return false;
      }
    }
    pi := SkipStars(p, pi);
    return pi == |p|;
  }

  // ---- names that hold a star

  lemma {:induction false} PrefixMatches(p: string, n: string, k: nat)
    requires k <= |p| && k <= |n| && (forall j :: 0 <= j < k ==> p[j] != '*' && (p[j] == '?' || p[j] == n[j]))
    requires Glob(p[k..], n[k..])
    ensures Glob(p, n)
    decreases k
  {
    if k == 0 {
      assert p[0..] == p && n[0..] == n;
    } else {
      assert p[1..][k - 1..] == p[k..] && n[1..][k - 1..] == n[k..];
      PrefixMatches(p[1..], n[1..], k - 1);
    }
  }

  /** A pattern that agrees with the name place by place is read literally to the end. */
  lemma {:induction false} ReadLiterally(p: string, n: string, j: nat)
    requires j <= |n| <= |p| && forall i :: 0 <= i < |n| ==> p[i] == '?' || p[i] == n[i]
    ensures Scan(p, n, j, j, -1, 0) == Glob(p[|n|..], "")
    decreases |n| - j
  {
    if j < |n| {
      ReadLiterally(p, n, j + 1);
    }
  }

  /** The first star as a star for nothing, and one question mark for every character from there on. */
  function Misread(n: string, i: nat): (p: string)
    requires i < |n|
    ensures |p| == |n| + 1 && p[..i] == n[..i] && p[i] == '*' && forall j :: i < j < |p| ==> p[j] == '?'
  {
    n[..i] + "*" + seq(|n| - i, _ => '?')
  }

  /** For every name with a star there is a pattern that means it and that the matcher rejects. */
  lemma StarredNameIsMissed(n: string) returns (p: string)
    requires '*' in n
    ensures Glob(p, n) && !Greedy(p, n)
  {
    var i := FirstStar(n);
    p := Misread(n, i);
    PrefixMatches(p[i + 1..], n[i..], |n| - i);
    assert p[i..][1..] == p[i + 1..];
    StepStar(p[i..], n[i..]);
    assert forall j :: 0 <= j < i ==> p[j] == p[..i][j] && n[j] == n[..i][j];
    PrefixMatches(p, n, i);
    ReadLiterally(p, n, 0);
    assert p[|n|..][0] == '?';
  }

  lemma {:induction false} FirstStar(n: string) returns (i: nat)
    requires '*' in n
    ensures i < |n| && n[i] == '*' && '*' !in n[..i]
    decreases |n|
  {
    if n[0] == '*' {
      i := 0;
    } else {
      assert n == [n[0]] + n[1..];
      i := FirstStar(n[1..]);
      assert n[..i + 1] == [n[0]] + n[1..][..i];
      i := i + 1;
    }
  }

  /** The matcher is complete for a name, over all patterns, if and only if the name holds no star. */
  lemma CompleteIffNoStar(n: string)
    ensures '*' !in n <==> forall p :: Glob(p, n) ==> Greedy(p, n)
  {
    if '*' in n {
      var p := StarredNameIsMissed(n);
    } else {
      forall p | Glob(p, n) ensures Greedy(p, n) {
        GreedyExact(p, n);
      }
    }
  }

  /** The smallest kind of miss: the star of the name is taken for the star of the pattern. */
  lemma MissedName()
    ensures Glob("*a", "*ba") && !Greedy("*a", "*ba")
  {
    var p, n := "*a", "*ba";
    assert p[1..] == "a" && n[1..] == "ba" && n[1..][1..] == "a" && "a"[1..] == "";
    assert Glob("a", "a");
    assert Glob(p, "a");
    assert Glob(p, "ba");
    assert Scan(p, n, 0, 0, -1, 0) == Scan(p, n, 1, 1, -1, 0);
  }

  /** The whole comparison: three patterns match everything, any other is translated and folded. */
  method Match(fold: char -> char, pattern: string, name: string) returns (matched: bool)
    requires forall c :: fold(c) == '*' <==> c == '*'
    ensures pattern == "" || pattern == "*" || pattern == "*.*" ==> matched
    ensures matched ==>
      || pattern == "" || pattern == "*" || pattern == "*.*"
      || Glob(Fold(fold, Translate(pattern)), Fold(fold, name))
    ensures '*' !in name && Glob(Fold(fold, Translate(pattern)), Fold(fold, name)) ==> matched
  {
    if pattern == "" || pattern == "*" || pattern == "*.*" {
      return true;
    }
    matched := GreedyMatch(Fold(fold, Translate(pattern)), Fold(fold, name));
  }

  // ---- the meaning as a division of the name

  function Join(shares: seq<string>): string {
    if shares == [] then "" else shares[0] + Join(shares[1..])
  }

  /** What one pattern character may stand for. */
  predicate StandsFor(c: char, share: string) {
    c != '*' ==> |share| == 1 && (c == '?' || share[0] == c)
  }

  ghost predicate Divides(p: string, n: string, shares: seq<string>) {
    |shares| == |p| && Join(shares) == n && forall i :: 0 <= i < |p| ==> StandsFor(p[i], shares[i])
  }

  /** A name matches exactly when it divides into consecutive shares, one for each pattern character:
      any run for a star, one character for any other. */
  lemma {:induction false} GlobMeans(p: string, n: string)
    ensures Glob(p, n) <==> exists shares :: Divides(p, n, shares)
  {
    if Glob(p, n) {
      var shares := Division(p, n);
    }
    if shares :| Divides(p, n, shares) {
      FromDivision(p, n, shares);
    }
  }

  lemma {:induction false} Division(p: string, n: string) returns (shares: seq<string>)
    requires Glob(p, n)
    ensures Divides(p, n, shares)
    decreases |p|
  {
    if p == "" {
      shares := [];
    } else {
      var j: nat := 1;
      if p[0] == '*' {
        j := StarLeaves(p, n);
      }
      var rest := Division(p[1..], n[j..]);
      shares := [n[..j]] + rest;
      assert shares[1..] == rest && n == n[..j] + n[j..];
    }
  }

  lemma {:induction false} FromDivision(p: string, n: string, shares: seq<string>)
    requires Divides(p, n, shares)
    ensures Glob(p, n)
    decreases |p|
  {
    if p != "" {
      var j := |shares[0]|;
      assert n[j..] == Join(shares[1..]) && n[..j] == shares[0];
      assert StandsFor(p[0], shares[0]);
      FromDivision(p[1..], n[j..], shares[1..]);
      if p[0] == '*' {
        StepStar(p, n[j..]);
        StarAbsorbs(p, n, j);
      }
    }
  }

  lemma StepStar(p: string, n: string)
    requires p != "" && p[0] == '*' && Glob(p[1..], n)
    ensures Glob(p, n)
  {
  }

  // ---- what a search pattern means

  /** What one character of a search pattern may stand for: any run for a star in either spelling, any one
      character for a question mark in either spelling, a dot for the quote, and otherwise a character that
      differs from it at most in case. */
  predicate Suits(fold: char -> char, c: char, share: string) {
    if c == '*' || c == '<' then true
    else |share| == 1 && (c == '?' || c == '>' || fold(share[0]) == fold(if c == '"' then '.' else c))
  }

  ghost predicate Covers(fold: char -> char, pattern: string, name: string, shares: seq<string>) {
    |shares| == |pattern| && Join(shares) == name && forall i :: 0 <= i < |pattern| ==> Suits(fold, pattern[i], shares[i])
  }

  /** Folding keeps the two wildcards apart from everything else. */
  ghost predicate KeepsWildcards(fold: char -> char) {
    forall c :: (fold(c) == '*' <==> c == '*') && (fold(c) == '?' <==> c == '?')
  }

  function FoldAll(fold: char -> char, shares: seq<string>): (r: seq<string>)
    ensures |r| == |shares| && forall i :: 0 <= i < |shares| ==> r[i] == Fold(fold, shares[i])
  {
    seq(|shares|, i requires 0 <= i < |shares| => Fold(fold, shares[i]))
  }

  lemma {:induction false} FoldJoin(fold: char -> char, shares: seq<string>)
    ensures Join(FoldAll(fold, shares)) == Fold(fold, Join(shares))
  {
    if shares != [] {
      FoldJoin(fold, shares[1..]);
      assert FoldAll(fold, shares)[1..] == FoldAll(fold, shares[1..]);
    }
  }

  /** A division of the folded name is a division of the name. */
  lemma {:induction false} Unfold(fold: char -> char, name: string, folded: seq<string>) returns (shares: seq<string>)
    requires Join(folded) == Fold(fold, name)
    ensures Join(shares) == name && FoldAll(fold, shares) == folded
    decreases |folded|
  {
    if folded == [] {
      shares := [];
    } else {
      var k := |folded[0]|;
      assert Fold(fold, name)[k..] == Join(folded[1..]);
      assert Fold(fold, name[k..]) == Fold(fold, name)[k..];
      var rest := Unfold(fold, name[k..], folded[1..]);
      shares := [name[..k]] + rest;
      assert shares[1..] == rest;
      assert Fold(fold, name)[..k] == folded[0];
      assert Fold(fold, name[..k]) == folded[0];
    }
  }

  lemma SuitsMeans(fold: char -> char, c: char, share: string)
    requires KeepsWildcards(fold)
    ensures StandsFor(fold(Spelling(c)), Fold(fold, share)) <==> Suits(fold, c, share)
  {
  }

  /** A name matches the translated and folded pattern exactly when it divides into consecutive shares that
      suit the characters of the pattern as it was given. */
  lemma PatternMeans(fold: char -> char, pattern: string, name: string)
    requires KeepsWildcards(fold)
    ensures Glob(Fold(fold, Translate(pattern)), Fold(fold, name)) <==> exists shares :: Covers(fold, pattern, name, shares)
  {
    var p, n := Fold(fold, Translate(pattern)), Fold(fold, name);
    GlobMeans(p, n);
    if folded :| Divides(p, n, folded) {
      var shares := Unfold(fold, name, folded);
      forall i | 0 <= i < |pattern| ensures Suits(fold, pattern[i], shares[i]) {
        SuitsMeans(fold, pattern[i], shares[i]);
      }
      assert Covers(fold, pattern, name, shares);
    }
    if shares :| Covers(fold, pattern, name, shares) {
      FoldJoin(fold, shares);
      forall i | 0 <= i < |pattern| ensures StandsFor(p[i], FoldAll(fold, shares)[i]) {
        SuitsMeans(fold, pattern[i], shares[i]);
      }
      assert Divides(p, n, FoldAll(fold, shares));
    }
  }
}
