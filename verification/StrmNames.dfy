/** Names of generated .strm files: bounded, collision free, and independent of the input order. */
module StrmNames {
  import opened Types
  import opened Sums
  import opened SmbNames
  import opened ByteOrder

  const MAX_BYTES := 255
  const MIN_HASH := 8
  const MAX_HASH := 64

  /** One file to name. Strings are byte strings here. */
  datatype Item = Item(key: string, stem: string, ext: string, disc: bool, hash: string)

  predicate Proper(n: Item) {
    MIN_HASH <= |n.hash| <= MAX_HASH
  }

  function EndingOf(n: Item): (e: string)
    ensures |e| <= 9
  {
    if n.disc then ".iso.strm" else ".strm"
  }

  // -------------------------------------------------------------------- fitting

  /** The longest valid prefix; the empty string is valid. */
  function ValidPrefix(valid: string -> bool, s: string): (r: string)
    requires valid("")
    ensures |r| <= |s| && r == s[..|r|] && valid(r)
  {
    if valid(s) then s else ValidPrefix(valid, s[..|s| - 1])
  }

  function Cut(valid: string -> bool, stem: string, limit: int): (r: string)
    requires valid("") && 0 <= limit
    ensures |r| <= limit && |r| <= |stem| && r == stem[..|r|]
  {
    if |stem| > limit then ValidPrefix(valid, stem[..limit]) else stem
  }

  function FitSuffix(stem: string, ending: string, suffix: string, hash: string): string
    requires MIN_HASH <= |hash|
  {
    if suffix == "" && |stem| + |ending| > MAX_BYTES then "-" + hash[..8] else suffix
  }

  function Fit(valid: string -> bool, stem: string, ending: string, suffix: string, hash: string): (name: string)
    requires valid("") && MIN_HASH <= |hash| && |ending| <= 9 && |suffix| <= 200
    ensures |name| <= MAX_BYTES && |ending| <= |name| && name[|name| - |ending|..] == ending
  {
    var s := FitSuffix(stem, ending, suffix, hash);
    Cut(valid, stem, MAX_BYTES - |ending| - |s|) + s + ending
  }

  /** What is kept of a stem: all of it if there is room, else the longest valid prefix there is room for. */
  ghost predicate Keeps(valid: string -> bool, stem: string, room: int, kept: string) {
    && |kept| <= |stem| && kept == stem[..|kept|]
    && if |stem| <= room then kept == stem
       else |kept| <= room && valid(kept) && forall m :: |kept| < m <= room ==> !valid(stem[..m])
  }

  /** The kept part of the stem, the suffix and the ending. */
  ghost predicate Spells(valid: string -> bool, stem: string, suffix: string, ending: string, name: string) {
    exists kept :: Keeps(valid, stem, 255 - |ending| - |suffix|, kept) && name == kept + suffix + ending
  }

  lemma {:induction false} PrefixLongest(valid: string -> bool, s: string, m: nat)
    requires valid("") && |ValidPrefix(valid, s)| < m <= |s|
    ensures !valid(s[..m])
  {
    if m == |s| {
      assert s[..m] == s;
    } else {
      PrefixLongest(valid, s[..|s| - 1], m);
      assert s[..|s| - 1][..m] == s[..m];
    }
  }

  /** A name keeps as much of its stem as fits beside the suffix and the ending; a stem that is cut without a
      suffix of its own gets the first eight digits of the hash. */
  lemma FitSpells(valid: string -> bool, stem: string, ending: string, suffix: string, hash: string)
    requires valid("") && MIN_HASH <= |hash| && |ending| <= 9 && |suffix| <= 200
    ensures Spells(valid, stem, if suffix == "" && |stem| + |ending| > 255 then "-" + hash[..8] else suffix, ending,
                   Fit(valid, stem, ending, suffix, hash))
  {
    var s := FitSuffix(stem, ending, suffix, hash);
    CutKeeps(valid, stem, 255 - |ending| - |s|);
  }

  lemma CutKeeps(valid: string -> bool, stem: string, room: nat)
    requires valid("")
    ensures Keeps(valid, stem, room, Cut(valid, stem, room))
  {
    if |stem| > room {
      var kept := ValidPrefix(valid, stem[..room]);
      forall m | |kept| < m <= room ensures !valid(stem[..m]) {
        PrefixLongest(valid, stem[..room], m);
        assert stem[..room][..m] == stem[..m];
      }
      assert stem[..room][..|kept|] == stem[..|kept|];
    }
  }

  /** Trims the stem byte by byte until it is valid again. */
  method FitName(valid: string -> bool, stem: string, ending: string, suffix: string, hash: string) returns (name: string)
    requires valid("") && MIN_HASH <= |hash| && |ending| <= 9 && |suffix| <= 200
    ensures name == Fit(valid, stem, ending, suffix, hash)
  {
    var s := suffix;
    if s == "" && |stem| + |ending| > MAX_BYTES {
      s := "-" + hash[..8];
    }
    var limit := MAX_BYTES - |ending| - |s|;
    var kept := stem;
    if |kept| > limit {
      kept := kept[..limit];
      while !valid(kept)
        invariant |kept| <= limit && ValidPrefix(valid, kept) == ValidPrefix(valid, stem[..limit])
        decreases |kept|
      {
        kept := kept[..|kept| - 1];
      }
    }
    name := kept + s + ending;
  }

  // ------------------------------------------------------------------- one name

  function Numbered(hash: string, sequence: nat): string {
    "-" + hash + "-" + Decimal(sequence)
  }

  predicate Small(sequence: nat) {
    sequence < 2 * MAX_ENTRIES + 2
  }

  lemma NumberedLength(hash: string, sequence: nat)
    requires |hash| <= MAX_HASH && Small(sequence)
    ensures |Numbered(hash, sequence)| <= 200
  {
    SmallSalt(sequence);
    DecimalLength(sequence, 19);
  }

  function Candidate(valid: string -> bool, n: Item, stem: string, sequence: nat): string
    requires valid("") && Proper(n) && Small(sequence)
  {
    NumberedLength(n.hash, sequence);
    Fit(valid, stem, EndingOf(n), Numbered(n.hash, sequence), n.hash)
  }

  lemma CandidateShape(valid: string -> bool, n: Item, stem: string, i: nat) returns (x: string)
    requires valid("") && Proper(n) && Small(i)
    ensures Candidate(valid, n, stem, i) == (x + "-" + Decimal(i)) + EndingOf(n)
  {
    NumberedLength(n.hash, i);
    var kept := Cut(valid, stem, MAX_BYTES - |EndingOf(n)| - |Numbered(n.hash, i)|);
    x := kept + "-" + n.hash;
    assert Candidate(valid, n, stem, i) == kept + Numbered(n.hash, i) + EndingOf(n);
    assert kept + Numbered(n.hash, i) == x + "-" + Decimal(i);
  }

  /** Different sequence numbers give different names, whatever is cut off before them. */
  lemma CandidatesDiffer(valid: string -> bool, n: Item, stem: string, i: nat, j: nat)
    requires valid("") && Proper(n) && Small(i) && Small(j) && i != j
    ensures Candidate(valid, n, stem, i) != Candidate(valid, n, stem, j)
  {
    var x := CandidateShape(valid, n, stem, i);
    var y := CandidateShape(valid, n, stem, j);
    ShapesDiffer(x, i, y, j, EndingOf(n));
  }

  lemma ShapesDiffer(x: string, i: nat, y: string, j: nat, e: string)
    requires i != j
    ensures (x + "-" + Decimal(i)) + e != (y + "-" + Decimal(j)) + e
  {
    if (x + "-" + Decimal(i)) + e == (y + "-" + Decimal(j)) + e {
      StripTail(x + "-" + Decimal(i), y + "-" + Decimal(j), e);
      SameDigits(x, i, y, j);
    }
  }

  /** Among one more candidate than there are used names, one is free. */
  lemma {:induction false} FreeCandidate(valid: string -> bool, n: Item, stem: string, used: set<string>, k: nat, seen: set<string>)
    requires valid("") && Proper(n) && |used| <= 2 * MAX_ENTRIES && 1 <= k <= |used| + 2
    requires |seen| == k - 1 && (forall s :: s in seen ==> s in used)
    requires forall s :: s in seen ==> exists i :: 1 <= i < k && Small(i) && s == Candidate(valid, n, stem, i)
    ensures exists i :: k <= i <= |used| + 1 && Small(i) && Candidate(valid, n, stem, i) !in used
    decreases |used| + 2 - k
  {
    SubsetSize(seen, used);
    var name := Candidate(valid, n, stem, k);
    if name in used {
      forall s | s in seen ensures s != name {
        var i :| 1 <= i < k && Small(i) && s == Candidate(valid, n, stem, i);
        CandidatesDiffer(valid, n, stem, i, k);
      }
      forall s | s in seen + {name} ensures exists i :: 1 <= i < k + 1 && Small(i) && s == Candidate(valid, n, stem, i) {
        if s in seen {
          var i :| 1 <= i < k && Small(i) && s == Candidate(valid, n, stem, i);
        }
      }
      SubsetSize(seen + {name}, used);
      FreeCandidate(valid, n, stem, used, k + 1, seen + {name});
    }
  }

  ghost predicate Reaches(valid: string -> bool, n: Item, stem: string, used: set<string>, k: nat)
    requires valid("") && Proper(n) && |used| <= 2 * MAX_ENTRIES
  {
    exists i :: k <= i <= |used| + 1 && Small(i) && Candidate(valid, n, stem, i) !in used
  }

  lemma ReachesFirst(valid: string -> bool, n: Item, stem: string, used: set<string>)
    requires valid("") && Proper(n) && |used| <= 2 * MAX_ENTRIES
    ensures Reaches(valid, n, stem, used, 1)
  {
    FreeCandidate(valid, n, stem, used, 1, {});
  }

  /** The first free numbered name. */
  function FirstNumbered(valid: string -> bool, n: Item, stem: string, used: set<string>, k: nat): (name: string)
    requires valid("") && Proper(n) && |used| <= 2 * MAX_ENTRIES && Reaches(valid, n, stem, used, k)
    ensures name !in used && Named(n, name)
    decreases |used| + 2 - k
  {
    var name := Candidate(valid, n, stem, k);
    if name !in used then name else FirstNumbered(valid, n, stem, used, k + 1)
  }

  /** What every generated name promises. */
  predicate Named(n: Item, name: string) {
    |EndingOf(n)| <= |name| <= MAX_BYTES && name[|name| - |EndingOf(n)|..] == EndingOf(n)
  }

  /** The first free name among growing prefixes of the hash. */
  function FirstHashed(valid: string -> bool, n: Item, stem: string, used: set<string>, length: nat): (r: Option<string>)
    requires valid("") && Proper(n)
    ensures r.Some? ==> r.value !in used && Named(n, r.value)
    decreases |n.hash| + 1 - length
  {
    if length > |n.hash| then None
    else
      var name := Fit(valid, stem, EndingOf(n), "-" + n.hash[..length], n.hash);
      if name !in used then Some(name) else FirstHashed(valid, n, stem, used, length + 4)
  }

  function Plain(valid: string -> bool, n: Item): string
    requires valid("") && Proper(n)
  {
    Fit(valid, n.stem, EndingOf(n), "", n.hash)
  }

  /** The stem after the first collision check: videos fall back on keeping their extension. */
  function BaseOf(valid: string -> bool, n: Item, contested: bool, used: set<string>): string
    requires valid("") && Proper(n)
  {
    if !n.disc && (contested || Plain(valid, n) in used) then n.stem + n.ext else n.stem
  }

  /** The name one item gets: its plain name, the name with its extension, then ever longer hashes,
      then numbers. `contested` says that another item prefers the same plain name. */
  function Choose(valid: string -> bool, n: Item, contested: bool, used: set<string>): (name: string)
    requires valid("") && Proper(n) && |used| <= 2 * MAX_ENTRIES
    ensures name !in used && Named(n, name)
  {
    var stem := BaseOf(valid, n, contested, used);
    var first := Fit(valid, stem, EndingOf(n), "", n.hash);
    if first !in used then first
    else
      var hashed := FirstHashed(valid, n, stem, used, 8);
      if hashed.Some? then hashed.value
      else
        ReachesFirst(valid, n, stem, used);
        FirstNumbered(valid, n, stem, used, 1)
  }

  // ---- the order of attempts

  predicate HashLength(n: Item, length: nat) {
    8 <= length <= |n.hash| && length % 4 == 0
  }

  function Hashed(valid: string -> bool, n: Item, stem: string, length: nat): string
    requires valid("") && Proper(n) && HashLength(n, length)
  {
    Fit(valid, stem, EndingOf(n), "-" + n.hash[..length], n.hash)
  }

  /** The shortest part of the hash whose name is free. */
  ghost predicate ByHash(valid: string -> bool, n: Item, stem: string, used: set<string>, length: nat, name: string)
    requires valid("") && Proper(n)
  {
    && HashLength(n, length) && name == Hashed(valid, n, stem, length)
    && forall m: nat :: HashLength(n, m) && m < length ==> Hashed(valid, n, stem, m) in used
  }

  /** The smallest number whose name is free, when no part of the hash helps. */
  ghost predicate ByNumber(valid: string -> bool, n: Item, stem: string, used: set<string>, i: nat, name: string)
    requires valid("") && Proper(n)
  {
    && (forall m: nat :: HashLength(n, m) ==> Hashed(valid, n, stem, m) in used)
    && 1 <= i && Small(i) && name == Candidate(valid, n, stem, i)
    && forall j: nat :: 1 <= j < i ==> Candidate(valid, n, stem, j) in used
  }

  /** The first free name in order: the stem itself, the stem with ever longer parts of the hash, the stem
      with hash and number. */
  ghost predicate FirstFree(valid: string -> bool, n: Item, stem: string, used: set<string>, name: string)
    requires valid("") && Proper(n)
  {
    var bare := Fit(valid, stem, EndingOf(n), "", n.hash);
    && name !in used
    && if bare !in used then name == bare
       else (exists length: nat :: ByHash(valid, n, stem, used, length, name))
            || (exists i: nat :: ByNumber(valid, n, stem, used, i, name))
  }

  lemma {:induction false} FirstHashedMeans(valid: string -> bool, n: Item, stem: string, used: set<string>, length: nat)
    requires valid("") && Proper(n) && 8 <= length && length % 4 == 0
    requires forall m: nat :: HashLength(n, m) && m < length ==> Hashed(valid, n, stem, m) in used
    ensures var r := FirstHashed(valid, n, stem, used, length);
      if r.Some? then exists l: nat :: ByHash(valid, n, stem, used, l, r.value)
      else forall m: nat :: HashLength(n, m) ==> Hashed(valid, n, stem, m) in used
    decreases |n.hash| + 1 - length
  {
    if length <= |n.hash| {
      if Hashed(valid, n, stem, length) !in used {
        assert ByHash(valid, n, stem, used, length, Hashed(valid, n, stem, length));
      } else {
        forall m: nat | HashLength(n, m) && m < length + 4 ensures Hashed(valid, n, stem, m) in used {
          NextMultiple(m, length);
        }
        FirstHashedMeans(valid, n, stem, used, length + 4);
      }
    }
  }

  lemma NextMultiple(m: nat, length: nat)
    requires m % 4 == 0 && length % 4 == 0 && m < length + 4
    ensures m <= length
  {
  }

  lemma {:induction false} FirstNumberedMeans(valid: string -> bool, n: Item, stem: string, used: set<string>, k: nat)
    requires valid("") && Proper(n) && |used| <= 2 * MAX_ENTRIES && 1 <= k && Reaches(valid, n, stem, used, k)
    requires forall m: nat :: HashLength(n, m) ==> Hashed(valid, n, stem, m) in used
    requires forall j: nat :: 1 <= j < k ==> Small(j) && Candidate(valid, n, stem, j) in used
    ensures exists i: nat :: ByNumber(valid, n, stem, used, i, FirstNumbered(valid, n, stem, used, k))
    decreases |used| + 2 - k
  {
    if Candidate(valid, n, stem, k) in used {
      FirstNumberedMeans(valid, n, stem, used, k + 1);
      assert FirstNumbered(valid, n, stem, used, k) == FirstNumbered(valid, n, stem, used, k + 1);
    } else {
      assert ByNumber(valid, n, stem, used, k, Candidate(valid, n, stem, k));
      assert FirstNumbered(valid, n, stem, used, k) == Candidate(valid, n, stem, k);
    }
  }

  /** The choice is the first free name of the stem, which for a video includes its extension once another
      item prefers the same plain name or that name is taken. */
  lemma ChooseMeans(valid: string -> bool, n: Item, contested: bool, used: set<string>)
    requires valid("") && Proper(n) && |used| <= 2 * MAX_ENTRIES
    ensures var stem := if !n.disc && (contested || Plain(valid, n) in used) then n.stem + n.ext else n.stem;
      FirstFree(valid, n, stem, used, Choose(valid, n, contested, used))
  {
    var stem := BaseOf(valid, n, contested, used);
    FirstHashedMeans(valid, n, stem, used, 8);
    if FirstHashed(valid, n, stem, used, 8).None? {
      ReachesFirst(valid, n, stem, used);
      FirstNumberedMeans(valid, n, stem, used, 1);
    }
  }

  /** The search loops for one item. */
  method SearchName(valid: string -> bool, n: Item, stem: string, used: set<string>) returns (name: string)
    requires valid("") && Proper(n) && |used| <= 2 * MAX_ENTRIES && Fit(valid, stem, EndingOf(n), "", n.hash) in used
    requires Reaches(valid, n, stem, used, 1)
    ensures var hashed := FirstHashed(valid, n, stem, used, 8);
      name == if hashed.Some? then hashed.value else FirstNumbered(valid, n, stem, used, 1)
  {
    name := FitName(valid, stem, EndingOf(n), "", n.hash);
    var length := 8;
    while length <= |n.hash|
      invariant 8 <= length && name in used
      invariant FirstHashed(valid, n, stem, used, 8) == FirstHashed(valid, n, stem, used, length)
      decreases |n.hash| + 1 - length
    {
      name := FitName(valid, stem, EndingOf(n), "-" + n.hash[..length], n.hash);
      if name !in used {
        break;
      }
      length := length + 4;
    }
    if name in used {
      name := SearchNumbered(valid, n, stem, used);
    }
  }

  method SearchNumbered(valid: string -> bool, n: Item, stem: string, used: set<string>) returns (name: string)
    requires valid("") && Proper(n) && |used| <= 2 * MAX_ENTRIES && Reaches(valid, n, stem, used, 1)
    ensures name == FirstNumbered(valid, n, stem, used, 1)
  {
    NumberedLength(n.hash, 1);
    name := FitName(valid, stem, EndingOf(n), Numbered(n.hash, 1), n.hash);
    var sequence: nat := 1;
    while name in used
      invariant 1 <= sequence && Reaches(valid, n, stem, used, sequence) && name == Candidate(valid, n, stem, sequence)
      invariant FirstNumbered(valid, n, stem, used, 1) == FirstNumbered(valid, n, stem, used, sequence)
      decreases |used| + 2 - sequence
    {
      sequence := sequence + 1;
      NumberedLength(n.hash, sequence);
      name := FitName(valid, stem, EndingOf(n), Numbered(n.hash, sequence), n.hash);
    }
  }

  method ChooseName(valid: string -> bool, n: Item, contested: bool, used: set<string>) returns (name: string)
    requires valid("") && Proper(n) && |used| <= 2 * MAX_ENTRIES
    ensures name == Choose(valid, n, contested, used)
  {
    var stem := n.stem;
    name := FitName(valid, stem, EndingOf(n), "", n.hash);
    if !n.disc && (contested || name in used) {
      stem := stem + n.ext;
      name := FitName(valid, stem, EndingOf(n), "", n.hash);
    }
    if name in used {
      ReachesFirst(valid, n, stem, used);
      name := SearchName(valid, n, stem, used);
    }
  }

  // ------------------------------------------------------------------- ordering

  function Insert(x: Item, s: seq<Item>): (r: seq<Item>)
    ensures |r| == |s| + 1 && forall y :: y in r <==> y == x || y in s
  {
    if s == [] then [x]
    else if Before(x.key, s[0].key) then [x] + s
    else
      var tail := Insert(x, s[1..]);
      assert forall y :: y in s <==> y == s[0] || y in s[1..];
      [s[0]] + tail
  }

  /** A stable sort by key. */
  function Sort(items: seq<Item>): (r: seq<Item>)
    ensures |r| == |items| && forall y :: y in r <==> y in items
  {
    if items == [] then []
    else
      assert forall y :: y in items <==> y == items[0] || y in items[1..];
      Insert(items[0], Sort(items[1..]))
  }

  ghost predicate Sorted(s: seq<Item>) {
    forall i, j :: 0 <= i < j < |s| ==> Before(s[i].key, s[j].key)
  }

  lemma {:induction false} InsertSorted(x: Item, s: seq<Item>)
    requires Sorted(s)
    ensures Sorted(Insert(x, s))
  {
    if s != [] {
      if Before(x.key, s[0].key) {
        forall j | 0 < j < |s| ensures Before(x.key, s[j].key) {
          BeforeTransitive(x.key, s[0].key, s[j].key);
        }
      } else {
        BeforeTotal(x.key, s[0].key);
        InsertSorted(x, s[1..]);
        var tail := Insert(x, s[1..]);
        forall j | 0 <= j < |tail| ensures Before(s[0].key, tail[j].key) {
          assert tail[j] in tail;
        }
      }
    }
  }

  lemma {:induction false} SortSorted(items: seq<Item>)
    ensures Sorted(Sort(items))
  {
    if items != [] {
      SortSorted(items[1..]);
      InsertSorted(items[0], Sort(items[1..]));
    }
  }

  ghost predicate DistinctKeys(s: seq<Item>) {
    forall i, j :: 0 <= i < j < |s| ==> s[i].key != s[j].key
  }

  lemma {:induction false} InsertDistinct(x: Item, s: seq<Item>)
    requires DistinctKeys(s) && forall y :: y in s ==> y.key != x.key
    ensures DistinctKeys(Insert(x, s))
  {
    if s != [] && !Before(x.key, s[0].key) {
      InsertDistinct(x, s[1..]);
      var tail := Insert(x, s[1..]);
      forall j | 0 <= j < |tail| ensures tail[j].key != s[0].key {
        assert tail[j] in tail;
      }
    }
  }

  lemma {:induction false} SortDistinct(items: seq<Item>)
    requires DistinctKeys(items)
    ensures DistinctKeys(Sort(items))
  {
    if items != [] {
      SortDistinct(items[1..]);
      forall y | y in Sort(items[1..]) ensures y.key != items[0].key {
        assert y in items[1..];
      }
      InsertDistinct(items[0], Sort(items[1..]));
    }
  }

  ghost predicate SameItems(a: seq<Item>, b: seq<Item>) {
    forall x :: x in a <==> x in b
  }

  lemma FirstIsLeast(s: seq<Item>, x: Item)
    requires Sorted(s) && x in s
    ensures Before(s[0].key, x.key)
  {
    BeforeTotal(x.key, x.key);
  }

  lemma SameHead(a: seq<Item>, b: seq<Item>)
    requires Sorted(a) && Sorted(b) && DistinctKeys(a) && SameItems(a, b) && a != [] && b != []
    ensures a[0] == b[0]
  {
    assert a[0] in b && b[0] in a;
    FirstIsLeast(a, b[0]);
    FirstIsLeast(b, a[0]);
    BeforeAntisymmetric(a[0].key, b[0].key);
  }

  lemma SameTails(a: seq<Item>, b: seq<Item>)
    requires DistinctKeys(a) && DistinctKeys(b) && SameItems(a, b) && a != [] && b != [] && a[0] == b[0]
    ensures SameItems(a[1..], b[1..])
  {
    forall x ensures x in a[1..] <==> x in a && x != a[0] {
      assert x in a <==> x == a[0] || x in a[1..];
    }
    forall x ensures x in b[1..] <==> x in b && x != b[0] {
      assert x in b <==> x == b[0] || x in b[1..];
    }
  }

  /** With distinct keys there is only one sorted order. */
  lemma {:induction false} OneSortedOrder(a: seq<Item>, b: seq<Item>)
    requires Sorted(a) && Sorted(b) && DistinctKeys(a) && DistinctKeys(b) && SameItems(a, b)
    ensures a == b
  {
    if a == [] {
      assert forall i :: 0 <= i < |b| ==> b[i] in b;
    } else {
      assert a[0] in b;
      SameHead(a, b);
      SameTails(a, b);
      OneSortedOrder(a[1..], b[1..]);
      assert a == [a[0]] + a[1..] && b == [b[0]] + b[1..];
    }
  }

  // ------------------------------------------------------------------ all names

  ghost predicate AllProper(items: seq<Item>) {
    forall x :: x in items ==> Proper(x)
  }

  /** How many items prefer a plain name. */
  ghost function Count(valid: string -> bool, items: seq<Item>, name: string): nat
    requires valid("") && AllProper(items)
  {
    if items == [] then 0
    else
      Count(valid, items[1..], name) + if Plain(valid, items[0]) == name then 1 else 0
  }

  lemma {:induction false} CountAppend(valid: string -> bool, a: seq<Item>, b: seq<Item>, name: string)
    requires valid("") && AllProper(a) && AllProper(b)
    ensures AllProper(a + b) && Count(valid, a + b, name) == Count(valid, a, name) + Count(valid, b, name)
  {
    if a == [] {
      assert a + b == b;
    } else {
      assert (a + b)[1..] == a[1..] + b;
      CountAppend(valid, a[1..], b, name);
    }
  }

  lemma {:induction false} CountInsert(valid: string -> bool, x: Item, s: seq<Item>, name: string)
    requires valid("") && AllProper(s) && Proper(x)
    ensures Count(valid, Insert(x, s), name) == Count(valid, [x] + s, name)
  {
    assert ([x] + s)[1..] == s;
    if s != [] && !Before(x.key, s[0].key) {
      CountInsert(valid, x, s[1..], name);
      assert ([x] + s[1..])[1..] == s[1..];
      assert Insert(x, s)[1..] == Insert(x, s[1..]);
    }
  }

  lemma {:induction false} CountSort(valid: string -> bool, items: seq<Item>, name: string)
    requires valid("") && AllProper(items)
    ensures Count(valid, Sort(items), name) == Count(valid, items, name)
  {
    if items != [] {
      CountSort(valid, items[1..], name);
      CountInsert(valid, items[0], Sort(items[1..]), name);
      assert ([items[0]] + Sort(items[1..]))[1..] == Sort(items[1..]);
    }
  }

  function Set(names: seq<string>): set<string> {
    set s | s in names
  }

  lemma {:induction false} SetSize(names: seq<string>)
    ensures |Set(names)| <= |names|
  {
    if names != [] {
      SetSize(names[..|names| - 1]);
      assert Set(names) == Set(names[..|names| - 1]) + {names[|names| - 1]};
    }
  }

  /** The name of the next item after those named so far. */
  ghost function Pick(valid: string -> bool, items: seq<Item>, used: set<string>, front: seq<string>): (name: string)
    requires valid("") && AllProper(items) && |front| < |items| && |used| + |items| <= 2 * MAX_ENTRIES
    ensures name !in used && name !in front && Named(items[|front|], name)
  {
    SetSize(front);
    var n := items[|front|];
    Choose(valid, n, Count(valid, items, Plain(valid, n)) > 1, used + Set(front))
  }

  /** The rule as a value: which name is due after the names given so far. */
  ghost function Rule(valid: string -> bool, items: seq<Item>, used: set<string>): seq<string> -> string
    requires valid("") && AllProper(items) && |used| + |items| <= 2 * MAX_ENTRIES
  {
    (front: seq<string>) => if |front| < |items| then Pick(valid, items, used, front) else ""
  }

  lemma RuleGood(valid: string -> bool, items: seq<Item>, used: set<string>, front: seq<string>)
    requires valid("") && AllProper(items) && |used| + |items| <= 2 * MAX_ENTRIES && |front| < |items|
    ensures var name := Rule(valid, items, used)(front);
      name == Pick(valid, items, used, front) && name !in used && name !in front && Named(items[|front|], name)
  {
  }

  /** Each name is the one that was due after the names before it. */
  ghost predicate Greedy(rule: seq<string> -> string, names: seq<string>) {
    forall i :: 0 <= i < |names| ==> names[i] == rule(names[..i])
  }

  lemma GreedySnoc(rule: seq<string> -> string, names: seq<string>)
    requires Greedy(rule, names)
    ensures Greedy(rule, names + [rule(names)])
  {
    var more := names + [rule(names)];
    forall i | 0 <= i < |more| ensures more[i] == rule(more[..i]) {
      assert more[..i] == names[..i];
      assert names[..|names|] == names;
    }
  }

  lemma {:induction false} GreedyUnique(rule: seq<string> -> string, a: seq<string>, b: seq<string>, k: nat)
    requires Greedy(rule, a) && Greedy(rule, b) && k <= |a| && k <= |b|
    ensures a[..k] == b[..k]
  {
    if k > 0 {
      GreedyUnique(rule, a, b, k - 1);
      assert a[..k] == a[..k - 1] + [a[k - 1]] && b[..k] == b[..k - 1] + [b[k - 1]];
    }
  }

  /** Pairwise distinct, none of them reserved, each within 255 bytes and with its own ending. */
  ghost predicate Apart(items: seq<Item>, used: set<string>, names: seq<string>) {
    && |names| <= |items|
    && (forall i, j :: 0 <= i < j < |names| ==> names[i] != names[j])
    && (forall i :: 0 <= i < |names| ==> names[i] !in used && Named(items[i], names[i]))
  }

  lemma GreedyApart(valid: string -> bool, items: seq<Item>, used: set<string>, names: seq<string>)
    requires valid("") && AllProper(items) && |used| + |items| <= 2 * MAX_ENTRIES && |names| <= |items|
    requires Greedy(Rule(valid, items, used), names)
    ensures Apart(items, used, names)
  {
    forall j | 0 <= j < |names|
      ensures names[j] !in used && Named(items[j], names[j]) && names[j] !in names[..j]
    {
      RuleGood(valid, items, used, names[..j]);
    }
    forall i, j | 0 <= i < j < |names| ensures names[i] != names[j] {
      assert names[..j][i] == names[i];
    }
  }

  // ---- what the names are

  /** Some item prefers this plain name. */
  ghost predicate Preferred(valid: string -> bool, items: seq<Item>, name: string)
    requires valid("") && AllProper(items)
  {
    exists x :: x in items && Plain(valid, x) == name
  }

  /** Another item, before or after it, prefers the same plain name. */
  ghost predicate Contested(valid: string -> bool, items: seq<Item>, i: nat)
    requires valid("") && AllProper(items) && i < |items|
  {
    Preferred(valid, items[..i], Plain(valid, items[i])) || Preferred(valid, items[i + 1..], Plain(valid, items[i]))
  }

  lemma {:induction false} CountPreferred(valid: string -> bool, items: seq<Item>, name: string)
    requires valid("") && AllProper(items)
    ensures Count(valid, items, name) > 0 <==> Preferred(valid, items, name)
  {
    if items != [] {
      CountPreferred(valid, items[1..], name);
      assert forall x :: x in items <==> x == items[0] || x in items[1..];
    }
  }

  lemma CountContested(valid: string -> bool, items: seq<Item>, i: nat)
    requires valid("") && AllProper(items) && i < |items|
    ensures Count(valid, items, Plain(valid, items[i])) > 1 <==> Contested(valid, items, i)
  {
    assert items[i] in items && AllProper(items[..i]) && AllProper(items[i + 1..]);
    CountAround(valid, items[..i], items[i], items[i + 1..], Plain(valid, items[i]));
    Rejoin(items, i);
  }

  lemma Rejoin(items: seq<Item>, i: nat)
    requires i < |items|
    ensures (items[..i] + [items[i]]) + items[i + 1..] == items
  {
  }

  lemma CountAround(valid: string -> bool, a: seq<Item>, x: Item, b: seq<Item>, name: string)
    requires valid("") && AllProper(a) && AllProper(b) && Proper(x) && Plain(valid, x) == name
    ensures AllProper((a + [x]) + b)
    ensures Count(valid, (a + [x]) + b, name) > 1 <==> Preferred(valid, a, name) || Preferred(valid, b, name)
  {
    CountSnoc(valid, a, x, name);
    CountAppend(valid, a + [x], b, name);
    CountPreferred(valid, a, name);
    CountPreferred(valid, b, name);
  }

  /** An item's name is the first free one, given what is reserved and the names before it: of its stem, or
      of stem and extension for a video whose plain name is contested or taken. */
  ghost predicate Rightly(valid: string -> bool, items: seq<Item>, reserved: set<string>, names: seq<string>, i: nat)
    requires valid("") && AllProper(items) && |names| <= |items| && i < |names|
  {
    var n, used := items[i], reserved + Set(names[..i]);
    var stem := if !n.disc && (Contested(valid, items, i) || Plain(valid, n) in used) then n.stem + n.ext else n.stem;
    FirstFree(valid, n, stem, used, names[i])
  }

  lemma NamedRightly(valid: string -> bool, items: seq<Item>, reserved: set<string>, names: seq<string>, i: nat)
    requires valid("") && AllProper(items) && |reserved| + |items| <= 2 * MAX_ENTRIES && |names| <= |items| && i < |names|
    requires Greedy(Rule(valid, items, reserved), names)
    ensures Rightly(valid, items, reserved, names, i)
  {
    RuleGood(valid, items, reserved, names[..i]);
    SetSize(names[..i]);
    CountContested(valid, items, i);
    ChooseMeans(valid, items[i], Count(valid, items, Plain(valid, items[i])) > 1, reserved + Set(names[..i]));
  }

  /** In particular: a stem that fits, whose plain name nobody else prefers and which is free, is the name
      with its ending; a contested or taken one of a video that fits with its extension, and is free then,
      is the name with extension and ending. */
  lemma PlainNames(valid: string -> bool, items: seq<Item>, reserved: set<string>, names: seq<string>, i: nat)
    requires valid("") && AllProper(items) && |names| <= |items| && i < |names| && Rightly(valid, items, reserved, names, i)
    ensures var n, used := items[i], reserved + Set(names[..i]);
      var ending := if n.disc then ".iso.strm" else ".strm";
      var plain, full := n.stem + ending, n.stem + n.ext + ending;
      && (|plain| <= 255 && plain !in used && (n.disc || !Contested(valid, items, i)) ==> names[i] == plain)
      && (!n.disc && |full| <= 255 && full !in used && (Contested(valid, items, i) || plain in used) ==> names[i] == full)
  {
    var n, used := items[i], reserved + Set(names[..i]);
    assert n in items;
    FitsWhole(valid, n.stem, EndingOf(n), n.hash);
    if !n.disc && (Contested(valid, items, i) || Plain(valid, n) in used) {
      FreeBare(valid, n, n.stem + n.ext, used, names[i]);
    } else {
      FreeBare(valid, n, n.stem, used, names[i]);
    }
  }

  lemma FreeBare(valid: string -> bool, n: Item, stem: string, used: set<string>, name: string)
    requires valid("") && Proper(n) && FirstFree(valid, n, stem, used, name)
    ensures |stem + EndingOf(n)| <= 255 && stem + EndingOf(n) !in used ==> name == stem + EndingOf(n)
  {
    FitsWhole(valid, stem, EndingOf(n), n.hash);
  }

  lemma FitsWhole(valid: string -> bool, stem: string, ending: string, hash: string)
    requires valid("") && MIN_HASH <= |hash| && |ending| <= 9
    ensures |stem| + |ending| <= 255 ==> Fit(valid, stem, ending, "", hash) == stem + ending
  {
    if |stem| + |ending| <= 255 {
      FitSpells(valid, stem, ending, "", hash);
      assert stem + "" + ending == stem + ending;
    }
  }

  /** With distinct keys, every order of the same items gives every key the same name. */
  lemma OrderDoesNotMatter(valid: string -> bool, a: seq<Item>, b: seq<Item>, used: set<string>, x: seq<string>, y: seq<string>)
    requires valid("") && AllProper(Sort(a)) && AllProper(Sort(b)) && |used| + |a| <= 2 * MAX_ENTRIES && |used| + |b| <= 2 * MAX_ENTRIES
    requires DistinctKeys(a) && DistinctKeys(b) && SameItems(a, b)
    requires |x| == |a| && Greedy(Rule(valid, Sort(a), used), x)
    requires |y| == |b| && Greedy(Rule(valid, Sort(b), used), y)
    ensures Sort(a) == Sort(b) && x == y
  {
    SortSorted(a);
    SortSorted(b);
    SortDistinct(a);
    SortDistinct(b);
    OneSortedOrder(Sort(a), Sort(b));
    GreedyUnique(Rule(valid, Sort(a), used), x, y, |x|);
    assert x[..|x|] == x && y[..|y|] == y;
  }

  function Tally(preferred: map<string, nat>, name: string): nat {
    if name in preferred then preferred[name] else 0
  }

  ghost predicate Tallied(valid: string -> bool, items: seq<Item>, preferred: map<string, nat>)
    requires valid("") && AllProper(items)
  {
    forall name :: Tally(preferred, name) == Count(valid, items, name)
  }

  lemma TallyOne(valid: string -> bool, items: seq<Item>, preferred: map<string, nat>, x: Item)
    requires valid("") && AllProper(items) && Proper(x) && Tallied(valid, items, preferred)
    ensures AllProper(items + [x])
    ensures Tallied(valid, items + [x], preferred[Plain(valid, x) := Tally(preferred, Plain(valid, x)) + 1])
  {
    var plain := Plain(valid, x);
    forall name ensures Tally(preferred[plain := Tally(preferred, plain) + 1], name) == Count(valid, items + [x], name) {
      CountSnoc(valid, items, x, name);
    }
  }

  lemma CountSnoc(valid: string -> bool, items: seq<Item>, x: Item, name: string)
    requires valid("") && AllProper(items) && Proper(x)
    ensures AllProper(items + [x])
    ensures Count(valid, items + [x], name) == Count(valid, items, name) + if Plain(valid, x) == name then 1 else 0
  {
    CountAppend(valid, items, [x], name);
  }

  lemma SliceSnoc(items: seq<Item>, k: nat)
    requires k < |items|
    ensures items[..k + 1] == items[..k] + [items[k]]
  {
  }

  /** Counts the plain names of the items as they come. */
  method CountPlain(valid: string -> bool, items: seq<Item>) returns (preferred: map<string, nat>)
    requires valid("") && AllProper(items)
    ensures Tallied(valid, items, preferred)
  {
    preferred := map[];
    for k := 0 to |items|
      invariant AllProper(items[..k]) && Tallied(valid, items[..k], preferred)
    {
      assert items[k] in items;
      TallyOne(valid, items[..k], preferred, items[k]);
      SliceSnoc(items, k);
      var name := FitName(valid, items[k].stem, EndingOf(items[k]), "", items[k].hash);
      preferred := preferred[name := Tally(preferred, name) + 1];
    }
    assert items[..|items|] == items;
  }

  method PickName(valid: string -> bool, sorted: seq<Item>, preferred: map<string, nat>, reserved: set<string>,
                  used: set<string>, names: seq<string>)
    returns (name: string)
    requires valid("") && AllProper(sorted) && |names| < |sorted| && |reserved| + |sorted| <= 2 * MAX_ENTRIES
    requires Tallied(valid, sorted, preferred) && used == reserved + Set(names)
    ensures name == Pick(valid, sorted, reserved, names)
  {
    var n := sorted[|names|];
    assert n in sorted;
    SetSize(names);
    assert Tally(preferred, Plain(valid, n)) == Count(valid, sorted, Plain(valid, n));
    name := ChooseName(valid, n, Tally(preferred, Plain(valid, n)) > 1, used);
  }

  lemma TallySort(valid: string -> bool, items: seq<Item>, preferred: map<string, nat>)
    requires valid("") && AllProper(items) && Tallied(valid, items, preferred)
    ensures AllProper(Sort(items)) && Tallied(valid, Sort(items), preferred)
  {
    forall name ensures Tally(preferred, name) == Count(valid, Sort(items), name) {
      assert Tally(preferred, name) == Count(valid, items, name);
      CountSort(valid, items, name);
    }
  }

  /** Names every item. */
  method AllocateNames(valid: string -> bool, items: seq<Item>, reserved: set<string>)
    returns (sorted: seq<Item>, names: seq<string>)
    requires valid("") && AllProper(items) && |reserved| + |items| <= 2 * MAX_ENTRIES
    ensures sorted == Sort(items) && AllProper(sorted) && |names| == |items|
    ensures Greedy(Rule(valid, sorted, reserved), names) && Apart(sorted, reserved, names)
    ensures forall i :: 0 <= i < |names| ==> Rightly(valid, sorted, reserved, names, i)
  {
    var preferred := CountPlain(valid, items);
    sorted := Sort(items);
    TallySort(valid, items, preferred);
    names := AssignNames(valid, sorted, preferred, reserved);
    GreedyApart(valid, sorted, reserved, names);
    forall i | 0 <= i < |names| ensures Rightly(valid, sorted, reserved, names, i) {
      NamedRightly(valid, sorted, reserved, names, i);
    }
  }

  method AssignNames(valid: string -> bool, sorted: seq<Item>, preferred: map<string, nat>, reserved: set<string>)
    returns (names: seq<string>)
    requires valid("") && AllProper(sorted) && |reserved| + |sorted| <= 2 * MAX_ENTRIES
    requires Tallied(valid, sorted, preferred)
    ensures |names| == |sorted| && Greedy(Rule(valid, sorted, reserved), names)
  {
    names := [];
    var used := reserved;
    for k := 0 to |sorted|
      invariant |names| == k && Greedy(Rule(valid, sorted, reserved), names) && used == reserved + Set(names)
    {
      var name := NextName(valid, sorted, preferred, reserved, used, names);
      names, used := names + [name], used + {name};
    }
  }

  method NextName(valid: string -> bool, sorted: seq<Item>, preferred: map<string, nat>, reserved: set<string>,
                  used: set<string>, names: seq<string>)
    returns (name: string)
    requires valid("") && AllProper(sorted) && |names| < |sorted| && |reserved| + |sorted| <= 2 * MAX_ENTRIES
    requires Tallied(valid, sorted, preferred) && used == reserved + Set(names)
    requires Greedy(Rule(valid, sorted, reserved), names)
    ensures Greedy(Rule(valid, sorted, reserved), names + [name]) && used + {name} == reserved + Set(names + [name])
  {
    name := PickName(valid, sorted, preferred, reserved, used, names);
    SetSnoc(names, name);
    RuleGood(valid, sorted, reserved, names);
    GreedySnoc(Rule(valid, sorted, reserved), names);
  }

  lemma SetSnoc(names: seq<string>, name: string)
    ensures Set(names + [name]) == Set(names) + {name}
  {
  }
}
