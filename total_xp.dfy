/** The module-XP total shown as "XP: <n> KB" (calculateTotalXP, script.js:158-165). */
module TotalXp {
  import opened Records

  /** Flat allowance added to the module XP before conversion to KB. */
  const BaseXp: int := 70000

  const ModuleWord: string := "module"
  const PiscineSuffix: string := "/piscine"

  /** ASCII case folding. The regex's `i` flag (without `u`) never maps a
      non-ASCII character onto an ASCII one, so for the all-ASCII patterns
      "module" and "/piscine" this is exactly the folding the regex applies. */
  function Lower(c: char): char {
    if 'A' <= c <= 'Z' then (c as int + 32) as char else c
  }

  /** The lower-case pattern `pat` occurs at position `i` of `s`, ignoring ASCII case. */
  predicate MatchesAt(s: string, i: nat, pat: string) {
    i + |pat| <= |s| && forall k :: 0 <= k < |pat| ==> Lower(s[i + k]) == pat[k]
  }

  /** The regex `/module(?!\/piscine)/i` matches starting at position `i`:
      "module" is there and is not immediately followed by "/piscine". */
  predicate CountedAt(path: string, i: nat) {
    MatchesAt(path, i, ModuleWord) && !MatchesAt(path, i + |ModuleWord|, PiscineSuffix)
  }

  /** What `modulePathRegex.test(path)` decides: some occurrence of "module" escapes the lookahead. */
  ghost predicate IsModulePath(path: string) {
    exists i: nat :: CountedAt(path, i)
  }

  /** The regex search: try every start position from `i` on. */
  function SearchFrom(path: string, i: nat): (found: bool)
    requires i <= |path|
    ensures found <==> exists j: nat :: i <= j && CountedAt(path, j)
    decreases |path| - i
  {
    if i == |path| then false
    else CountedAt(path, i) || SearchFrom(path, i + 1)
  }

  /** `modulePathRegex.test(path)`. */
  function IsModuleXp(path: string): (matched: bool)
    ensures matched <==> IsModulePath(path)
  {
    SearchFrom(path, 0)
  }

  /** `xps.filter(xp => modulePathRegex.test(xp.path))`, in order. */
  function ModuleEntries(xps: seq<XpEntry>): (kept: seq<XpEntry>)
    ensures |kept| <= |xps|
  {
    if xps == [] then []
    else (if IsModuleXp(xps[0].path) then [xps[0]] else []) + ModuleEntries(xps[1..])
  }

  /** The filter keeps exactly the entries whose path the regex accepts. */
  lemma {:induction false} ModuleEntriesKeeps(xps: seq<XpEntry>)
    ensures forall e :: e in ModuleEntries(xps) <==> e in xps && IsModulePath(e.path)
  {
    if xps != [] {
      ModuleEntriesKeeps(xps[1..]);
      assert xps == [xps[0]] + xps[1..];
    }
  }

  /** `.reduce((sum, xp) => sum + xp.amount, 0)`, a left fold. */
  function Sum(xps: seq<XpEntry>): int {
    if xps == [] then 0 else Sum(xps[..|xps| - 1]) + xps[|xps| - 1].amount
  }

  /** `(t / 1000).toFixed(0)` for an integer `t`, read back as an integer.
      toFixed rounds the magnitude to the nearest integer and takes the larger
      one on a tie, so a tie rounds away from zero; "-0" reads as 0. */
  function RoundThousandths(t: int): (n: int)
    ensures t >= 0 ==> 1000 * n - 500 <= t < 1000 * n + 500
    ensures t < 0 ==> 1000 * n - 500 < t <= 1000 * n + 500
  {
    if t >= 0 then (t + 500) / 1000 else -((-t + 500) / 1000)
  }

  /** calculateTotalXP: the module XP plus the base allowance, in whole KB. */
  function TotalXP(xps: seq<XpEntry>): (kb: int)
    ensures 1000 * kb - 500 <= Sum(ModuleEntries(xps)) + BaseXp <= 1000 * kb + 500
  {
    RoundThousandths(Sum(ModuleEntries(xps)) + BaseXp)
  }

  lemma {:induction false} SumAppend(a: seq<XpEntry>, b: seq<XpEntry>)
    ensures Sum(a + b) == Sum(a) + Sum(b)
    decreases |b|
  {
    if b == [] {
      assert a + b == a;
    } else {
      var b' := b[..|b| - 1];
      SumAppend(a, b');
      assert (a + b)[..|a + b| - 1] == a + b';
    }
  }

  lemma {:induction false} ModuleEntriesAppend(a: seq<XpEntry>, b: seq<XpEntry>)
    ensures ModuleEntries(a + b) == ModuleEntries(a) + ModuleEntries(b)
    decreases |a|
  {
    if a == [] {
      assert a + b == b;
    } else {
      ModuleEntriesAppend(a[1..], b);
      var head := if IsModuleXp(a[0].path) then [a[0]] else [];
      assert (a + b)[0] == a[0] && (a + b)[1..] == a[1..] + b;
      assert ModuleEntries(a + b) == head + ModuleEntries(a[1..] + b);
      assert ModuleEntries(a) == head + ModuleEntries(a[1..]);
    }
  }

  /** The module XP of `a + [e] + b` is that of `a + b`, plus `e.amount` exactly when `e` is kept. */
  lemma ModuleXpInsert(a: seq<XpEntry>, e: XpEntry, b: seq<XpEntry>)
    ensures Sum(ModuleEntries(a + [e] + b)) ==
            Sum(ModuleEntries(a + b)) + (if IsModulePath(e.path) then e.amount else 0)
  {
    ModuleEntriesAppend(a + [e], b);
    ModuleEntriesAppend(a, [e]);
    ModuleEntriesAppend(a, b);
    var single := ModuleEntries([e]);
    assert single == (if IsModuleXp(e.path) then [e] else []) + ModuleEntries([]);
    SumAppend(ModuleEntries(a) + single, ModuleEntries(b));
    SumAppend(ModuleEntries(a), single);
    SumAppend(ModuleEntries(a), ModuleEntries(b));
    assert Sum([e]) == Sum([]) + e.amount;
  }

  lemma RoundMonotone(s: int, t: int)
    requires s <= t
    ensures RoundThousandths(s) <= RoundThousandths(t)
  {
  }

  /** An entry the regex rejects never changes the total, wherever it stands. */
  lemma UncountedEntryIgnored(a: seq<XpEntry>, e: XpEntry, b: seq<XpEntry>)
    requires !IsModulePath(e.path)
    ensures TotalXP(a + [e] + b) == TotalXP(a + b)
  {
    ModuleXpInsert(a, e, b);
  }

  /** A path with no "module" at all, or whose every "module" (any case) is
      immediately followed by "/piscine" (any case), contributes nothing. */
  lemma PiscineEntryIgnored(a: seq<XpEntry>, e: XpEntry, b: seq<XpEntry>)
    requires forall i: nat :: MatchesAt(e.path, i, ModuleWord) ==> MatchesAt(e.path, i + |ModuleWord|, PiscineSuffix)
    ensures TotalXP(a + [e] + b) == TotalXP(a + b)
  {
    UncountedEntryIgnored(a, e, b);
  }

  /** An entry with one occurrence of "module" that escapes the lookahead contributes its whole amount. */
  lemma CountedEntryAdds(a: seq<XpEntry>, e: XpEntry, b: seq<XpEntry>, i: nat)
    requires CountedAt(e.path, i)
    ensures Sum(ModuleEntries(a + [e] + b)) == Sum(ModuleEntries(a + b)) + e.amount
    ensures TotalXP(a + [e] + b) == RoundThousandths(Sum(ModuleEntries(a + b)) + e.amount + BaseXp)
  {
    assert IsModulePath(e.path);
    ModuleXpInsert(a, e, b);
  }

  /** Adding an entry with a non-negative amount never lowers the total. */
  lemma TotalXpMonotone(a: seq<XpEntry>, e: XpEntry, b: seq<XpEntry>)
    requires e.amount >= 0
    ensures TotalXP(a + [e] + b) >= TotalXP(a + b)
  {
    ModuleXpInsert(a, e, b);
    RoundMonotone(Sum(ModuleEntries(a + b)) + BaseXp, Sum(ModuleEntries(a + [e] + b)) + BaseXp);
  }

  /** With no XP entries the page shows the base allowance, 70 KB. */
  lemma TotalXpOfNothing()
    ensures TotalXP([]) == 70
  {
  }

  /** A single module entry of 1000 gives round((1000 + 70000) / 1000) = 71. */
  lemma TotalXpOfOneModule()
    ensures TotalXP([XpEntry("module-1", 1000)]) == 71
  {
    assert CountedAt("module-1", 0);
    ModuleXpInsert([], XpEntry("module-1", 1000), []);
  }

  /** The lookahead works per occurrence: a path that contains "Module/Piscine"
      is still counted when another "module" in it escapes the lookahead. */
  lemma LookaheadIsPerOccurrence()
    ensures MatchesAt("Module/Piscine/module", 0, "module/piscine")
    ensures TotalXP([XpEntry("Module/Piscine/module", 500)]) == 71
  {
    var p := "Module/Piscine/module";
    assert Lower('M') == 'm' && Lower('P') == 'p';
    assert forall k :: 0 <= k < 14 ==> Lower(p[k]) == "module/piscine"[k];
    assert MatchesAt(p, 15, ModuleWord);
    assert CountedAt(p, 15);
    var e := XpEntry(p, 500);
    assert ModuleEntries([e]) == [e] by {
      assert IsModuleXp(p);
      assert ModuleEntries([e]) == [e] + ModuleEntries([]);
    }
    assert Sum([e]) == 500;
  }
}
