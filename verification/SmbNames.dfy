/** Names shown to SMB clients: an invertible escape, and collision-free short names. */
module SmbNames {
  import opened Wildcard
  import opened Sums

  const MAX_UNITS := 255
  const MAX_ENDING := 64

  // ------------------------------------------------------------------ escaping

  predicate IsControl(c: char) {
    c as int < 0x20 || 0x7F <= c as int < 0xA0
  }

  predicate Forbidden(c: char) {
    c == '\\' || c == '/' || c == ':' || c == '<' || c == '>' || c == '"' || c == '|' || c == '?' || c == '*'
  }

  predicate Dangling(c: char) {
    c == '.' || c == ' '
  }

  function HexDigit(n: nat): char
    requires n < 16
  {
    if n < 10 then ('0' as int + n) as char else ('A' as int + n - 10) as char
  }

  function HexValue(c: char): (r: int)
    ensures -1 <= r < 16
  {
    if '0' <= c <= '9' then c as int - '0' as int
    else if 'A' <= c <= 'F' then c as int - 'A' as int + 10
    else -1
  }

  function Escape(c: char): string
    requires c as int < 256
  {
    ['%', HexDigit(c as int / 16), HexDigit(c as int % 16)]
  }

  /** The reader's side: a percent sign and two digits stand for the character they number. */
  function Decode(s: string): string {
    if s == "" then ""
    else if s[0] == '%' && |s| >= 3 && HexValue(s[1]) >= 0 && HexValue(s[2]) >= 0 then
      [(HexValue(s[1]) * 16 + HexValue(s[2])) as char] + Decode(s[3..])
    else [s[0]] + Decode(s[1..])
  }

  /** Length without the trailing dots and spaces. */
  function TrimmedLength(name: string): (n: nat)
    ensures n <= |name| && (forall i :: n <= i < |name| ==> Dangling(name[i])) && (n > 0 ==> !Dangling(name[n - 1]))
  {
    if name == "" || !Dangling(name[|name| - 1]) then |name| else TrimmedLength(name[..|name| - 1])
  }

  predicate Escaped(c: char, dangling: bool) {
    IsControl(c) || c == '%' || Forbidden(c) || (dangling && Dangling(c))
  }

  function Spell(c: char, dangling: bool): string {
    if Escaped(c, dangling) then Escape(c) else [c]
  }

  /** The spelling of the characters from position k on. */
  function SpellFrom(name: string, end: nat, k: nat): string
    requires k <= |name|
    decreases |name| - k
  {
    if k == |name| then "" else Spell(name[k], k >= end) + SpellFrom(name, end, k + 1)
  }

  function Upper(c: char): char {
    if 'a' <= c <= 'z' then (c as int - 32) as char else c
  }

  /** Everything before the first dot, in upper case. */
  function Stem(s: string): string {
    if s == "" || s[0] == '.' then "" else [Upper(s[0])] + Stem(s[1..])
  }

  predicate Device(stem: string) {
    stem == "CON" || stem == "PRN" || stem == "AUX" || stem == "NUL"
  }

  predicate Port(stem: string) {
    |stem| == 4 && (stem[..3] == "COM" || stem[..3] == "LPT") && '1' <= stem[3] <= '9'
  }

  predicate DeviceStem(stem: string) {
    Device(stem) || Port(stem)
  }

  /** Device names begin with a letter and hold letters and digits only. */
  lemma DeviceLetters(stem: string)
    requires DeviceStem(stem)
    ensures stem != "" && 'A' <= stem[0] <= 'Z' && '~' !in stem
  {
    if Port(stem) {
      assert stem[0] == stem[..3][0] && stem[1] == stem[..3][1] && stem[2] == stem[..3][2];
    }
  }

  predicate Clean(s: string) {
    forall i :: 0 <= i < |s| ==> !IsControl(s[i]) && !Forbidden(s[i])
  }

  /** A name every client accepts. */
  predicate Portable(s: string) {
    Clean(s) && (s != "" ==> !Dangling(s[|s| - 1])) && !DeviceStem(Stem(s))
  }

  lemma DecodeEscape(c: char, rest: string)
    requires c as int < 256
    ensures Decode(Escape(c) + rest) == [c] + Decode(rest)
  {
    assert (Escape(c) + rest)[3..] == rest;
  }

  lemma DecodeSpell(c: char, dangling: bool, rest: string)
    ensures Decode(Spell(c, dangling) + rest) == [c] + Decode(rest)
  {
    if Escaped(c, dangling) {
      DecodeEscape(c, rest);
    } else {
      assert ([c] + rest)[1..] == rest;
    }
  }

  lemma {:induction false} DecodeSpelling(name: string, end: nat, k: nat)
    requires k <= |name|
    ensures Decode(SpellFrom(name, end, k)) == name[k..]
    decreases |name| - k
  {
    if k < |name| {
      DecodeSpell(name[k], k >= end, SpellFrom(name, end, k + 1));
      DecodeSpelling(name, end, k + 1);
    }
  }

  lemma {:induction false} SpellingClean(name: string, end: nat, k: nat)
    requires k <= |name|
    ensures Clean(SpellFrom(name, end, k))
    decreases |name| - k
  {
    if k < |name| {
      SpellingClean(name, end, k + 1);
    }
  }

  lemma {:induction false} SpellingEnds(name: string, k: nat)
    requires k < |name|
    ensures var s := SpellFrom(name, TrimmedLength(name), k); s != "" && !Dangling(s[|s| - 1])
    decreases |name| - k
  {
    if k + 1 < |name| {
      SpellingEnds(name, k + 1);
    } else {
      assert SpellFrom(name, TrimmedLength(name), k + 1) == "";
    }
  }

  lemma CleanParts(a: string, b: string)
    ensures Clean(a + b) <==> Clean(a) && Clean(b)
  {
    assert forall i :: 0 <= i < |a| ==> (a + b)[i] == a[i];
    assert forall i :: 0 <= i < |b| ==> (a + b)[|a| + i] == b[i];
  }

  lemma EscapeClean(c: char)
    requires c as int < 128
    ensures Clean(Escape(c))
  {
  }

  lemma PercentStem(s: string)
    requires s != "" && s[0] == '%'
    ensures !DeviceStem(Stem(s))
  {
    if DeviceStem(Stem(s)) {
      DeviceLetters(Stem(s));
    }
  }

  lemma DeviceFirst(s: string)
    requires DeviceStem(Stem(s))
    ensures s != "" && ('A' <= s[0] <= 'Z' || 'a' <= s[0] <= 'z')
  {
    DeviceLetters(Stem(s));
  }

  lemma GuardedDecode(c: char, rest: string)
    requires c as int < 128 && c != '%'
    ensures Decode(Escape(c) + rest) == Decode([c] + rest)
  {
    DecodeEscape(c, rest);
    assert ([c] + rest)[1..] == rest;
  }

  /** Escaping the first character of a device name takes it out of the device names. */
  lemma GuardedStem(c: char, rest: string)
    requires c as int < 128 && c != '%' && Clean([c] + rest) && (rest != "" ==> !Dangling(rest[|rest| - 1]))
    ensures Portable(Escape(c) + rest) && Decode(Escape(c) + rest) == Decode([c] + rest)
  {
    EscapeClean(c);
    CleanParts([c], rest);
    CleanParts(Escape(c), rest);
    PercentStem(Escape(c) + rest);
    GuardedDecode(c, rest);
  }

  lemma SpellingPortable(name: string)
    ensures var s := SpellFrom(name, TrimmedLength(name), 0);
      Clean(s) && Decode(s) == name && (s != "" ==> !Dangling(s[|s| - 1]))
  {
    DecodeSpelling(name, TrimmedLength(name), 0);
    SpellingClean(name, TrimmedLength(name), 0);
    assert name[0..] == name;
    if name != "" {
      SpellingEnds(name, 0);
    }
  }

  method SpellName(name: string, end: nat) returns (r: string)
    ensures r == SpellFrom(name, end, 0)
  {
    r := "";
    for k := 0 to |name|
      invariant r + SpellFrom(name, end, k) == SpellFrom(name, end, 0)
    {
      r := r + Spell(name[k], k >= end);
    }
  }

  /** The portable spelling: legal everywhere, and nothing is lost. */
  method PortableName(name: string) returns (r: string)
    ensures Portable(r) && Decode(r) == name
  {
    r := SpellName(name, TrimmedLength(name));
    SpellingPortable(name);
    if DeviceStem(Stem(r)) {
      DeviceFirst(r);
      assert r == [r[0]] + r[1..];
      GuardedStem(r[0], r[1..]);
      r := Escape(r[0]) + r[1..];
    }
  }

  // ------------------------------------------------------------------- lengths

  /** UTF-16 code units. */
  function Units(s: string): nat {
    if s == "" then 0 else Units(s[..|s| - 1]) + if s[|s| - 1] as int < 0x10000 then 1 else 2
  }

  lemma {:induction false} UnitsAppend(a: string, b: string)
    ensures Units(a + b) == Units(a) + Units(b)
  {
    if b == "" {
      assert a + b == a;
    } else {
      assert (a + b)[..|a + b| - 1] == a + b[..|b| - 1];
      UnitsAppend(a, b[..|b| - 1]);
    }
  }

  /** The longest prefix within the limit. */
  method TruncateName(name: string, limit: int) returns (r: string)
    ensures |r| <= |name| && r == name[..|r|]
    ensures Units(r) <= limit || r == ""
    ensures r != name ==> Units(name[..|r| + 1]) > limit
  {
    var units := 0;
    for index := 0 to |name|
      invariant units == Units(name[..index]) && (units <= limit || index == 0)
    {
      assert name[..index + 1][..index] == name[..index];
      units := units + if name[index] as int < 0x10000 then 1 else 2;
      if units > limit {
        return name[..index];
      }
    }
    assert name[..|name|] == name;
    return name;
  }

  // ---------------------------------------------------------------- disambiguation

  function Digit(n: nat): char
    requires n < 10
  {
    ('0' as int + n) as char
  }

  function Decimal(n: nat): (s: string)
    ensures s != "" && forall i :: 0 <= i < |s| ==> '0' <= s[i] <= '9'
  {
    if n < 10 then [Digit(n)] else Decimal(n / 10) + [Digit(n % 10)]
  }

  lemma {:induction false} DecimalInjective(a: nat, b: nat)
    requires Decimal(a) == Decimal(b)
    ensures a == b
  {
    var s, t := Decimal(a), Decimal(b);
    assert s[|s| - 1] == t[|t| - 1];
    if a >= 10 && b >= 10 {
      assert s[..|s| - 1] == Decimal(a / 10) && t[..|t| - 1] == Decimal(b / 10);
      DecimalInjective(a / 10, b / 10);
    }
  }

  function Pow10(k: nat): nat {
    if k == 0 then 1 else 10 * Pow10(k - 1)
  }

  lemma {:induction false} DecimalLength(n: nat, k: nat)
    requires 0 < k && n < Pow10(k)
    ensures |Decimal(n)| <= k
  {
    if n >= 10 {
      DecimalLength(n / 10, k - 1);
    }
  }

  function Hex(n: nat, width: nat): (s: string)
    ensures |s| == width && forall i :: 0 <= i < |s| ==> '0' <= s[i] <= '9' || 'a' <= s[i] <= 'f'
  {
    if width == 0 then ""
    else Hex(n / 16, width - 1) + [if n % 16 < 10 then Digit(n % 16) else ('a' as int + n % 16 - 10) as char]
  }

  function Suffix(identity: nat, salt: nat): (s: string)
    ensures s != "" && s[0] == '~' && Clean(s) && !Dangling(s[|s| - 1]) && '.' !in s
  {
    "~" + Hex(identity, 16) + if salt > 0 then "-" + Decimal(salt) else ""
  }

  function Lower(c: char): char {
    if 'A' <= c <= 'Z' then (c as int + 32) as char else c
  }

  predicate IsoStrm(base: string) {
    |base| >= 9 && Fold(Lower, base[|base| - 9..]) == ".iso.strm"
  }

  function FromLastDot(base: string): (e: string)
    ensures |e| <= |base| && e == base[|base| - |e|..]
    ensures if '.' in base then e != "" && e[0] == '.' else e == ""
  {
    if base == "" then ""
    else if base[|base| - 1] == '.' then base[|base| - 1..]
    else if '.' in base[..|base| - 1] then FromLastDot(base[..|base| - 1]) + [base[|base| - 1]]
    else ""
  }

  /** The extension to keep: ".iso.strm" in any case, else what follows the last dot; nothing when it
      is too long. */
  function Ending(base: string): (e: string)
    ensures |e| <= |base| && e == base[|base| - |e|..] && Units(e) <= MAX_ENDING
  {
    var e := if IsoStrm(base) then base[|base| - 9..] else FromLastDot(base);
    if Units(e) > MAX_ENDING then "" else e
  }

  /** A shortened name with the suffix before its extension. */
  method SuffixedName(base: string, suffix: string) returns (r: string, ghost kept: string)
    ensures r == kept + suffix + Ending(base) && |kept| + |Ending(base)| <= |base| && kept == base[..|kept|]
    ensures Units(suffix) + MAX_ENDING <= MAX_UNITS ==> Units(r) <= MAX_UNITS
  {
    var ending := Ending(base);
    var stem := base[..|base| - |ending|];
    var short := TruncateName(stem, MAX_UNITS - Units(suffix) - Units(ending));
    r := short + suffix + ending;
    kept := short;
    UnitsAppend(short + suffix, ending);
    UnitsAppend(short, suffix);
  }

  lemma {:induction false} StemOfPrefix(a: string, b: string)
    ensures '.' in a ==> Stem(a + b) == Stem(a)
    ensures '.' !in a && b != "" && b[0] == '~' ==> '~' in Stem(a + b)
  {
    if a == "" {
      assert a + b == b;
    } else if a[0] != '.' {
      assert (a + b)[1..] == a[1..] + b;
      StemOfPrefix(a[1..], b);
    }
  }

  lemma SuffixedStem(base: string, kept: string, rest: string)
    requires !DeviceStem(Stem(base)) && |kept| <= |base| && kept == base[..|kept|]
    requires rest != "" && rest[0] == '~'
    ensures !DeviceStem(Stem(kept + rest))
  {
    StemOfPrefix(kept, rest);
    if '.' in kept {
      assert base == kept + base[|kept|..];
      StemOfPrefix(kept, base[|kept|..]);
    } else if DeviceStem(Stem(kept + rest)) {
      DeviceLetters(Stem(kept + rest));
    }
  }

  lemma SuffixedPortable(base: string, kept: string, suffix: string)
    requires Portable(base) && |kept| + |Ending(base)| <= |base| && kept == base[..|kept|]
    requires suffix != "" && suffix[0] == '~' && Clean(suffix) && !Dangling(suffix[|suffix| - 1])
    ensures Portable(kept + suffix + Ending(base))
  {
    var e := Ending(base);
    assert kept + suffix + e == kept + (suffix + e);
    CleanParts(kept, suffix + e);
    CleanParts(suffix, e);
    SuffixedStem(base, kept, suffix + e);
    assert e != "" ==> e[|e| - 1] == base[|base| - 1];
  }

  /** Folding leaves digits and the dash alone. */
  ghost predicate KeepsDigits(fold: char -> char) {
    (forall c :: '0' <= c <= '9' ==> fold(c) == c) && fold('-') == '-'
  }

  lemma FoldAppend(fold: char -> char, a: string, b: string)
    ensures Fold(fold, a + b) == Fold(fold, a) + Fold(fold, b)
  {
  }

  lemma FoldDecimal(fold: char -> char, n: nat)
    requires KeepsDigits(fold)
    ensures Fold(fold, Decimal(n)) == Decimal(n)
  {
  }

  lemma FoldSalted(fold: char -> char, kept: string, identity: nat, salt: nat, e: string)
    requires KeepsDigits(fold) && salt > 0
    ensures Fold(fold, kept + Suffix(identity, salt) + e) ==
      Fold(fold, kept + "~" + Hex(identity, 16)) + "-" + Decimal(salt) + Fold(fold, e)
  {
    var x := kept + "~" + Hex(identity, 16);
    assert Suffix(identity, salt) == "~" + Hex(identity, 16) + "-" + Decimal(salt);
    assert kept + Suffix(identity, salt) + e == x + "-" + Decimal(salt) + e;
    FoldParts(fold, x, salt, e);
  }

  lemma FoldParts(fold: char -> char, x: string, salt: nat, e: string)
    requires KeepsDigits(fold)
    ensures Fold(fold, x + "-" + Decimal(salt) + e) == Fold(fold, x) + "-" + Decimal(salt) + Fold(fold, e)
  {
    FoldAppend(fold, x + "-" + Decimal(salt), e);
    FoldAppend(fold, x + "-", Decimal(salt));
    FoldAppend(fold, x, "-");
    FoldDecimal(fold, salt);
    assert Fold(fold, "-") == "-";
  }

  /** The last dash of a string that ends in digits. */
  lemma LastDash(x: string, s: string, i: nat)
    requires '-' !in s && i < |x| + 1 + |s|
    ensures (x + "-" + s)[|x|] == '-' && (i > |x| ==> (x + "-" + s)[i] != '-')
  {
    assert i > |x| ==> (x + "-" + s)[i] == s[i - |x| - 1];
  }

  lemma SameTail(x: string, s: string, y: string, t: string)
    requires '-' !in s && '-' !in t && x + "-" + s == y + "-" + t
    ensures s == t
  {
    LastDash(x, s, |y|);
    LastDash(y, t, |x|);
    assert (x + "-" + s)[|x| + 1..] == s && (y + "-" + t)[|y| + 1..] == t;
  }

  /** Two strings that end in a dash and digits only agree when the digits do. */
  lemma SameDigits(x: string, a: nat, y: string, b: nat)
    requires x + "-" + Decimal(a) == y + "-" + Decimal(b)
    ensures a == b
  {
    SameTail(x, Decimal(a), y, Decimal(b));
    DecimalInjective(a, b);
  }

  /** Different salts give different keys, so the search for a free name ends. */
  lemma SaltsDiffer(fold: char -> char, identity: nat, e: string, k1: string, s1: nat, k2: string, s2: nat)
    requires KeepsDigits(fold) && 0 < s1 && 0 < s2 && s1 != s2
    ensures Fold(fold, k1 + Suffix(identity, s1) + e) != Fold(fold, k2 + Suffix(identity, s2) + e)
  {
    FoldSalted(fold, k1, identity, s1, e);
    FoldSalted(fold, k2, identity, s2, e);
    var x := Fold(fold, k1 + "~" + Hex(identity, 16));
    var y := Fold(fold, k2 + "~" + Hex(identity, 16));
    var tail := Fold(fold, e);
    if x + "-" + Decimal(s1) + tail == y + "-" + Decimal(s2) + tail {
      StripTail(x + "-" + Decimal(s1), y + "-" + Decimal(s2), tail);
      SameDigits(x, s1, y, s2);
    }
  }

  lemma StripTail(a: string, b: string, tail: string)
    requires a + tail == b + tail
    ensures a == b
  {
    assert |a| == |b|;
    assert (a + tail)[..|a|] == a && (b + tail)[..|b|] == b;
  }

  lemma SuffixUnits(identity: nat, salt: nat)
    requires salt < Pow10(19)
    ensures Units(Suffix(identity, salt)) + MAX_ENDING <= MAX_UNITS
  {
    DecimalLength(salt, 19);
    UnitsBound(Suffix(identity, salt));
  }

  lemma {:induction false} UnitsBound(s: string)
    ensures Units(s) <= 2 * |s|
  {
    if s != "" {
      UnitsBound(s[..|s| - 1]);
    }
  }

  // -------------------------------------------------------------------- allocation

  const MAX_ENTRIES := 0x4000_0000_0000_0000

  ghost function KeyOf(fold: char -> char, identity: nat, e: string, kept: string, salt: nat): string {
    Fold(fold, kept + Suffix(identity, salt) + e)
  }

  /** The keys found taken so far: those of salts 1, 2, ... in order. */
  ghost predicate Tried(fold: char -> char, identity: nat, e: string, kepts: seq<string>, seen: set<string>) {
    && |seen| == |kepts|
    && forall k :: k in seen ==> exists i :: 0 <= i < |kepts| && k == KeyOf(fold, identity, e, kepts[i], i + 1)
  }

  lemma TryOne(fold: char -> char, identity: nat, e: string, kepts: seq<string>, seen: set<string>, kept: string)
    requires KeepsDigits(fold) && Tried(fold, identity, e, kepts, seen)
    ensures var key := KeyOf(fold, identity, e, kept, |kepts| + 1);
      Tried(fold, identity, e, kepts + [kept], seen + {key})
  {
    var key := KeyOf(fold, identity, e, kept, |kepts| + 1);
    var more := kepts + [kept];
    if key in seen {
      var i :| 0 <= i < |kepts| && key == KeyOf(fold, identity, e, kepts[i], i + 1);
      SaltsDiffer(fold, identity, e, kepts[i], i + 1, kept, |kepts| + 1);
    }
    forall k | k in seen + {key} ensures exists i :: 0 <= i < |more| && k == KeyOf(fold, identity, e, more[i], i + 1) {
      if k in seen {
        var i :| 0 <= i < |kepts| && k == KeyOf(fold, identity, e, kepts[i], i + 1);
        assert more[i] == kepts[i];
      } else {
        assert more[|kepts|] == kept;
      }
    }
  }

  lemma SmallSalt(salt: nat)
    requires salt < 2 * MAX_ENTRIES + 2
    ensures salt < Pow10(19)
  {
    assert Pow10(5) == 100000;
    assert Pow10(10) == 10000000000;
    assert Pow10(15) == 1000000000000000;
    assert Pow10(19) == 10000000000000000000;
  }

  method SaltedName(base: string, identity: nat, salt: nat) returns (name: string, ghost kept: string)
    requires Portable(base) && salt < 2 * MAX_ENTRIES + 2
    ensures name == kept + Suffix(identity, salt) + Ending(base) && |kept| <= |base| && kept == base[..|kept|]
    ensures Portable(name) && Units(name) <= MAX_UNITS
  {
    SmallSalt(salt);
    SuffixUnits(identity, salt);
    name, kept := SuffixedName(base, Suffix(identity, salt));
    SuffixedPortable(base, kept, Suffix(identity, salt));
  }

  /** Tries one salt after another until the folded name is free. It is found after at most one more
      salt than there are taken names. */
  method FreeName(fold: char -> char, base: string, identity: nat, taken: set<string>)
    returns (name: string, ghost kept: string, ghost salt: nat)
    requires KeepsDigits(fold) && Portable(base) && |taken| <= 2 * MAX_ENTRIES
    ensures Fold(fold, name) !in taken && Portable(name) && Units(name) <= MAX_UNITS
    ensures name == kept + Suffix(identity, salt) + Ending(base) && |kept| <= |base| && kept == base[..|kept|]
    ensures salt <= |taken| + 1
  {
    var next: nat := 0;
    ghost var kepts, seen: set<string> := [], {};
    while true
      invariant Tried(fold, identity, Ending(base), kepts, seen) && forall k :: k in seen ==> k in taken
      invariant |kepts| == (if next == 0 then 0 else next - 1) <= |taken|
      decreases |taken| + 2 - next
    {
      name, kept := SaltedName(base, identity, next);
      var key := Fold(fold, name);
      if key !in taken {
        salt := next;
        return;
      }
      if next > 0 {
        TryOne(fold, identity, Ending(base), kepts, seen, kept);
        kepts, seen := kepts + [kept], seen + {key};
        SubsetSize(seen, taken);
      }
      next := next + 1;
    }
  }

  ghost predicate Repeated(keys: seq<string>, k: string) {
    exists i, j :: 0 <= i < j < |keys| && keys[i] == k && keys[j] == k
  }

  /** The table knows which keys occur and which occur again. */
  ghost predicate Counted(keys: seq<string>, counts: map<string, nat>) {
    && (forall k :: k in counts <==> k in keys)
    && (forall k :: k in counts ==> counts[k] > 0 && (counts[k] > 1 <==> Repeated(keys, k)))
  }

  lemma RepeatedSnoc(keys: seq<string>, key: string, k: string)
    ensures Repeated(keys + [key], k) <==> Repeated(keys, k) || (k == key && k in keys)
  {
    var more := keys + [key];
    if Repeated(keys, k) {
      var i, j :| 0 <= i < j < |keys| && keys[i] == k && keys[j] == k;
      assert more[i] == k && more[j] == k;
    }
    if k == key && k in keys {
      var i :| 0 <= i < |keys| && keys[i] == k;
      assert more[i] == k && more[|keys|] == k;
    }
  }

  function Bump(counts: map<string, nat>, key: string): map<string, nat> {
    counts[key := if key in counts then counts[key] + 1 else 1]
  }

  lemma CountOne(keys: seq<string>, counts: map<string, nat>, key: string)
    requires Counted(keys, counts)
    ensures Counted(keys + [key], Bump(counts, key))
  {
    forall k ensures Repeated(keys + [key], k) <==> Repeated(keys, k) || (k == key && k in keys) {
      RepeatedSnoc(keys, key, k);
    }
  }

  ghost predicate Spelled(names: seq<string>, bases: seq<string>) {
    |bases| == |names| && forall i :: 0 <= i < |names| ==> Portable(bases[i]) && Decode(bases[i]) == names[i]
  }

  ghost predicate Keyed(fold: char -> char, bases: seq<string>, keys: seq<string>) {
    |keys| == |bases| && forall i :: 0 <= i < |bases| ==> keys[i] == Fold(fold, bases[i])
  }

  lemma SpelledSnoc(names: seq<string>, bases: seq<string>, base: string)
    requires |bases| < |names| && Spelled(names[..|bases|], bases)
    requires Portable(base) && Decode(base) == names[|bases|]
    ensures Spelled(names[..|bases| + 1], bases + [base])
  {
  }

  lemma KeyedSnoc(fold: char -> char, bases: seq<string>, keys: seq<string>, base: string)
    requires Keyed(fold, bases, keys)
    ensures Keyed(fold, bases + [base], keys + [Fold(fold, base)])
  {
  }

  method SpellAll(names: seq<string>) returns (bases: seq<string>)
    ensures Spelled(names, bases)
  {
    bases := [];
    for n := 0 to |names|
      invariant |bases| == n && Spelled(names[..n], bases)
    {
      var base := PortableName(names[n]);
      SpelledSnoc(names, bases, base);
      bases := bases + [base];
    }
    assert names[..|names|] == names;
  }

  /** Counts the portable spellings by their folded form. */
  method CountKeys(fold: char -> char, bases: seq<string>)
    returns (keys: seq<string>, counts: map<string, nat>, reserved: set<string>)
    ensures Keyed(fold, bases, keys) && Counted(keys, counts)
    ensures |reserved| <= |bases| && forall k :: k in keys ==> k in reserved
  {
    keys, counts, reserved := [], map[], {};
    for n := 0 to |bases|
      invariant Keyed(fold, bases[..n], keys) && Counted(keys, counts)
      invariant |reserved| <= n && forall k :: k in keys ==> k in reserved
    {
      var key := Fold(fold, bases[n]);
      CountOne(keys, counts, key);
      KeyedSnoc(fold, bases[..n], keys, bases[n]);
      assert bases[..n + 1] == bases[..n] + [bases[n]];
      counts := Bump(counts, key);
      reserved := reserved + {key};
      keys := keys + [key];
    }
    assert bases[..|bases|] == bases;
  }

  /** No other entry has this key. */
  ghost predicate Alone(keys: seq<string>, n: nat)
    requires n < |keys|
  {
    forall j :: 0 <= j < |keys| && j != n ==> keys[j] != keys[n]
  }

  lemma AloneIffOnce(keys: seq<string>, n: nat)
    requires n < |keys|
    ensures Alone(keys, n) <==> !Repeated(keys, keys[n])
  {
    if !Alone(keys, n) {
      var j :| 0 <= j < |keys| && j != n && keys[j] == keys[n];
      assert Repeated(keys, keys[n]) by {
        var lo, hi := if j < n then j else n, if j < n then n else j;
        assert keys[lo] == keys[n] && keys[hi] == keys[n];
      }
    }
  }

  ghost predicate Distinct(keys: seq<string>) {
    forall i, j :: 0 <= i < j < |keys| ==> keys[i] != keys[j]
  }

  /** The keys given out so far: each is its entry's own, alone of its kind, or nobody's own. */
  ghost predicate Given(keys: seq<string>, got: seq<string>) {
    && |got| <= |keys| && Distinct(got)
    && forall i :: 0 <= i < |got| ==> (got[i] == keys[i] && Alone(keys, i)) || got[i] !in keys
  }

  lemma GiveOwn(keys: seq<string>, got: seq<string>)
    requires Given(keys, got) && |got| < |keys| && Alone(keys, |got|)
    ensures Given(keys, got + [keys[|got|]])
  {
    var n := |got|;
    assert keys[n] in keys;
    assert forall i :: 0 <= i < n ==> got[i] != keys[n];
  }

  lemma GiveOther(keys: seq<string>, got: seq<string>, key: string)
    requires Given(keys, got) && |got| < |keys| && key !in keys && key !in got
    ensures Given(keys, got + [key])
  {
    assert forall i :: 0 <= i < |got| ==> got[i] != key;
  }

  /** Legal and short enough, and the escaped name itself wherever that is possible. */
  ghost predicate Fits(bases: seq<string>, keys: seq<string>, out: seq<string>)
    requires |out| <= |bases| == |keys|
  {
    && (forall i :: 0 <= i < |out| ==> Portable(out[i]) && Units(out[i]) <= MAX_UNITS)
    && (forall i :: 0 <= i < |out| && Alone(keys, i) && Units(bases[i]) <= MAX_UNITS ==> out[i] == bases[i])
  }

  lemma FitsSnoc(bases: seq<string>, keys: seq<string>, out: seq<string>, name: string)
    requires |out| < |bases| == |keys| && Fits(bases, keys, out)
    requires Portable(name) && Units(name) <= MAX_UNITS
    requires Alone(keys, |out|) && Units(bases[|out|]) <= MAX_UNITS ==> name == bases[|out|]
    ensures Fits(bases, keys, out + [name])
  {
    var more := out + [name];
    assert forall i :: 0 <= i < |out| ==> more[i] == out[i];
  }

  /** The name of entry n, given the keys of the entries before it. */
  method ChooseName(fold: char -> char, bases: seq<string>, keys: seq<string>, counts: map<string, nat>,
                    reserved: set<string>, used: set<string>, identity: nat, n: nat, ghost got: seq<string>)
    returns (name: string)
    requires KeepsDigits(fold) && Keyed(fold, bases, keys) && Counted(keys, counts)
    requires n == |got| < |bases| && Portable(bases[n]) && Given(keys, got)
    requires |reserved| + |used| <= 2 * MAX_ENTRIES
    requires (forall k :: k in keys ==> k in reserved) && (forall k :: k in got ==> k in used)
    ensures Portable(name) && Units(name) <= MAX_UNITS && Given(keys, got + [Fold(fold, name)])
    ensures Alone(keys, n) && Units(bases[n]) <= MAX_UNITS ==> name == bases[n]
  {
    AloneIffOnce(keys, n);
    assert keys[n] in keys;
    if counts[keys[n]] > 1 || Units(bases[n]) > MAX_UNITS {
      ghost var kept, salt;
      name, kept, salt := FreeName(fold, bases[n], identity, reserved + used);
      GiveOther(keys, got, Fold(fold, name));
    } else {
      name := bases[n];
      GiveOwn(keys, got);
    }
  }

  /** Assigns every entry of a directory a name: pairwise distinct after case folding, at most 255
      UTF-16 units, legal, and unchanged but for the escape wherever possible. */
  method SmbNames(fold: char -> char, names: seq<string>, ids: seq<nat>)
    returns (out: seq<string>, ghost bases: seq<string>, ghost keys: seq<string>)
    requires KeepsDigits(fold) && |names| == |ids| <= MAX_ENTRIES
    ensures Spelled(names, bases) && Keyed(fold, bases, keys)
    ensures |out| == |names| && Fits(bases, keys, out)
    ensures forall i, j :: 0 <= i < j < |out| ==> Fold(fold, out[i]) != Fold(fold, out[j])
  {
    var spelled := SpellAll(names);
    var folded, counts, reserved := CountKeys(fold, spelled);
    bases, keys := spelled, folded;
    out := [];
    var used: set<string> := {};
    ghost var got: seq<string> := [];
    for n := 0 to |names|
      invariant |out| == |got| == n && |used| <= n && Keyed(fold, out, got) && Given(keys, got) && Fits(bases, keys, out)
      invariant forall k :: k in got ==> k in used
    {
      var name := ChooseName(fold, spelled, folded, counts, reserved, used, ids[n], n, got);
      FitsSnoc(bases, keys, out, name);
      KeyedSnoc(fold, out, got, name);
      used := used + {Fold(fold, name)};
      out, got := out + [name], got + [Fold(fold, name)];
    }
  }
}
