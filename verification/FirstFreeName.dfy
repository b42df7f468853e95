/** The three "first free name" searches: the trash fallback, Duplicate, and the desktop's uniqueName.
    Each tries numbered candidates in order and stops at the first one that is not taken. */
module FirstFreeName {

  // ---- Rendering of numbers and names

  function Digit(d: nat): char
    requires d < 10
  {
    ['0', '1', '2', '3', '4', '5', '6', '7', '8', '9'][d]
  }

  function Decimal(n: nat): (s: string)
    ensures |s| > 0
  {
    if n < 10 then [Digit(n)] else Decimal(n / 10) + [Digit(n % 10)]
  }

  lemma {:induction false} DecimalInjective(m: nat, n: nat)
    requires Decimal(m) == Decimal(n)
    ensures m == n
  {
    var s, t := Decimal(m), Decimal(n);
    assert s[|s| - 1] == t[|t| - 1];
    if m >= 10 && n >= 10 {
      assert s[..|s| - 1] == Decimal(m / 10) && t[..|t| - 1] == Decimal(n / 10);
      DecimalInjective(m / 10, n / 10);
    }
  }

  /** The number that a decimal numeral stands for. */
  function ValueOf(s: string): int {
    if s == [] then 0 else 10 * ValueOf(s[..|s| - 1]) + (s[|s| - 1] as int - '0' as int)
  }

  lemma {:induction false} DecimalStandsFor(n: nat)
    ensures ValueOf(Decimal(n)) == n && (n > 0 ==> Decimal(n)[0] != '0')
  {
    if n >= 10 {
      DecimalStandsFor(n / 10);
      assert Decimal(n)[..|Decimal(n)| - 1] == Decimal(n / 10);
    } else {
      assert Decimal(n)[..0] == [];
    }
  }

  /** Position just after the last dot, or 0 when there is none. */
  function AfterLastDot(name: string): (k: nat)
    ensures k <= |name|
    ensures k > 0 ==> name[k - 1] == '.'
    ensures forall i :: k <= i < |name| ==> name[i] != '.'
  {
    if name == [] then 0
    else if name[|name| - 1] == '.' then |name|
    else AfterLastDot(name[..|name| - 1])
  }

  function CompleteBaseName(name: string): string {
    var k := AfterLastDot(name);
    if k == 0 then name else name[..k - 1]
  }

  function DottedSuffix(name: string): string {
    var k := AfterLastDot(name);
    if k == 0 || k == |name| then "" else name[k - 1..]
  }

  // ---- Candidates, numbered from 0 in the order they are tried

  datatype Scheme =
    | Trash(name: string)
    | Duplicate(name: string)
    | Unique(base: string, suffix: string)

  /** How many candidates the search can return. */
  function Tries(s: Scheme): nat {
    match s
    case Trash(_) => 10000
    case Duplicate(_) => 999
    case Unique(_, _) => 10000
  }

  function Numbered(base: string, open: string, i: nat, suffix: string): string {
    base + open + Decimal(i) + ")" + suffix
  }

  function First(s: Scheme): string {
    match s
    case Trash(name) => name
    case Duplicate(name) => CompleteBaseName(name) + " (copy)" + DottedSuffix(name)
    case Unique(base, suffix) => base + suffix
  }

  function Later(s: Scheme, i: nat): string {
    match s
    case Trash(name) => Numbered(CompleteBaseName(name), " (", i, DottedSuffix(name))
    case Duplicate(name) => Numbered(CompleteBaseName(name), " (copy ", i + 1, DottedSuffix(name))
    case Unique(base, suffix) => Numbered(base, " (", i + 1, suffix)
  }

  function Candidate(s: Scheme, i: nat): string {
    if i == 0 then First(s) else Later(s, i)
  }

  lemma LastDot(stem: string, ext: string)
    requires '.' !in ext
    ensures AfterLastDot(stem + "." + ext) == |stem| + 1
  {
    var name := stem + "." + ext;
    var k := AfterLastDot(name);
    hide AfterLastDot;
    assert name[|stem|] == '.';
    forall i | |stem| < i < |name| ensures name[i] != '.' { assert name[i] == ext[i - |stem| - 1]; }
  }

  /** The candidates of a name with an extension: the number goes between the stem and the extension. */
  lemma CandidatesKeepExtension(stem: string, ext: string, i: nat)
    requires '.' !in ext && ext != ""
    ensures var name := stem + "." + ext;
      && Candidate(Trash(name), 0) == name
      && (i > 0 ==> Candidate(Trash(name), i) == stem + " (" + Decimal(i) + ")" + "." + ext)
      && Candidate(Duplicate(name), 0) == stem + " (copy)" + "." + ext
      && (i > 0 ==> Candidate(Duplicate(name), i) == stem + " (copy " + Decimal(i + 1) + ")" + "." + ext)
  {
    var name := stem + "." + ext;
    LastDot(stem, ext);
    hide AfterLastDot, Decimal;
    assert CompleteBaseName(name) == stem && DottedSuffix(name) == "." + ext;
    hide CompleteBaseName, DottedSuffix;
    assert ")" + ("." + ext) == ")" + "." + ext;
  }

  /** And of one without: the number goes to the end, after a final dot is dropped. */
  lemma CandidatesWithoutExtension(stem: string, name: string, i: nat)
    requires ('.' !in stem && name == stem) || name == stem + "."
    ensures Candidate(Trash(name), 0) == name
    ensures i > 0 ==> Candidate(Trash(name), i) == stem + " (" + Decimal(i) + ")"
    ensures Candidate(Duplicate(name), 0) == stem + " (copy)"
    ensures i > 0 ==> Candidate(Duplicate(name), i) == stem + " (copy " + Decimal(i + 1) + ")"
  {
    if name == stem + "." { LastDot(stem, ""); assert stem + "." + "" == name; }
    hide AfterLastDot, Decimal;
    assert CompleteBaseName(name) == stem && DottedSuffix(name) == "";
    hide CompleteBaseName, DottedSuffix;
  }

  /** The desktop counts from 2, in front of the given suffix. */
  lemma UniqueCandidates(base: string, suffix: string, i: nat)
    ensures Candidate(Unique(base, suffix), 0) == base + suffix
    ensures i > 0 ==> Candidate(Unique(base, suffix), i) == base + " (" + Decimal(i + 1) + ")" + suffix
  {}

  lemma NumberedInjective(base: string, open: string, i: nat, j: nat, suffix: string)
    requires Numbered(base, open, i, suffix) == Numbered(base, open, j, suffix)
    ensures i == j
  {
    var a, b := Numbered(base, open, i, suffix), Numbered(base, open, j, suffix);
    var lo, hi := |base| + |open|, |a| - |suffix| - 1;
    assert a[lo..hi] == Decimal(i);
    assert b[lo..hi] == Decimal(j);
    DecimalInjective(i, j);
  }

  /** The unnumbered first candidate differs from every numbered one. */
  lemma FirstCandidateDiffers(s: Scheme, i: nat)
    requires i > 0
    ensures First(s) != Later(s, i)
  {
    match s
    case Trash(name) => assert |Later(s, i)| > |name|;
    case Duplicate(name) =>
      var k := |CompleteBaseName(name)| + 6;
      assert First(s)[k] == ')' && Later(s, i)[k] == ' ';
    case Unique(base, suffix) => assert |Later(s, i)| > |base + suffix|;
  }

  lemma LaterInjective(s: Scheme, i: nat, j: nat)
    requires Later(s, i) == Later(s, j)
    ensures i == j
  {
    match s
    case Trash(name) =>
      NumberedInjective(CompleteBaseName(name), " (", i, j, DottedSuffix(name));
    case Duplicate(name) =>
      NumberedInjective(CompleteBaseName(name), " (copy ", i + 1, j + 1, DottedSuffix(name));
    case Unique(base, suffix) =>
      NumberedInjective(base, " (", i + 1, j + 1, suffix);
  }

  lemma CandidatesDistinct(s: Scheme, i: nat, j: nat)
    requires i != j
    ensures Candidate(s, i) != Candidate(s, j)
  {
    if i == 0 {
      FirstCandidateDiffers(s, j);
    } else if j == 0 {
      FirstCandidateDiffers(s, i);
    } else if Later(s, i) == Later(s, j) {
      LaterInjective(s, i, j);
    }
  }

  ghost function Candidates(s: Scheme): set<string> {
    set i: nat | i < Tries(s) :: Candidate(s, i)
  }

  // ---- What a search promises

  ghost predicate SomeFree(s: Scheme, n: nat, taken: set<string>) {
    exists i: nat :: i < n && Candidate(s, i) !in taken
  }

  /** r is the first free one of the first n candidates. */
  ghost predicate IsFirstFree(s: Scheme, n: nat, taken: set<string>, r: string) {
    exists k: nat :: k < n && r == Candidate(s, k) && r !in taken && AllTaken(s, k, taken)
  }

  ghost predicate AllTaken(s: Scheme, k: nat, taken: set<string>) {
    forall i: nat :: i < k ==> Candidate(s, i) in taken
  }

  /** The name a checked search ends with: the first free one, or the last when none is. */
  ghost function Chosen(s: Scheme, taken: set<string>): string {
    ChosenFrom(s, 0, taken)
  }

  ghost function ChosenFrom(s: Scheme, i: nat, taken: set<string>): string
    requires i < Tries(s)
    decreases Tries(s) - i
  {
    if Candidate(s, i) !in taken || i == Tries(s) - 1 then Candidate(s, i) else ChosenFrom(s, i + 1, taken)
  }

  lemma {:induction false} ChosenFromSkips(s: Scheme, i: nat, k: nat, taken: set<string>)
    requires i <= k < Tries(s) && AllTaken(s, k, taken)
    ensures ChosenFrom(s, i, taken) == ChosenFrom(s, k, taken)
    decreases k - i
  {
    if i < k {
      assert Candidate(s, i) in taken;
      ChosenFromSkips(s, i + 1, k, taken);
    }
  }

  lemma {:induction false} ChosenFromIsFirst(s: Scheme, i: nat, taken: set<string>)
    requires i < Tries(s) && AllTaken(s, i, taken)
    ensures if SomeFree(s, Tries(s), taken) then IsFirstFree(s, Tries(s), taken, ChosenFrom(s, i, taken))
            else ChosenFrom(s, i, taken) == Candidate(s, Tries(s) - 1)
    decreases Tries(s) - i
  {
    hide Candidate, Tries;
    if Candidate(s, i) in taken {
      assert AllTaken(s, i + 1, taken);
      if i < Tries(s) - 1 { ChosenFromIsFirst(s, i + 1, taken); }
    }
  }

  /** What the choice means. */
  lemma ChosenIsFirst(s: Scheme, taken: set<string>)
    ensures if SomeFree(s, Tries(s), taken) then IsFirstFree(s, Tries(s), taken, Chosen(s, taken))
            else Chosen(s, taken) == Candidate(s, Tries(s) - 1)
    ensures Chosen(s, taken) in Candidates(s)
  {
    ChosenFromIsFirst(s, 0, taken);
  }

  /** Pigeonhole: when fewer than n names are taken, one of the first n candidates is free. */
  lemma {:induction false} FewerTakenThanTried(s: Scheme, n: nat, taken: set<string>)
    requires |taken| < n
    ensures SomeFree(s, n, taken)
  {
    var last := Candidate(s, n - 1);
    if last in taken {
      FewerTakenThanTried(s, n - 1, taken - {last});
      var i: nat :| i < n - 1 && Candidate(s, i) !in taken - {last};
      CandidatesDistinct(s, i, n - 1);
    }
  }

  // ---- The searches

  /** The loops of moveToTrash and duplicate: every candidate is checked. */
  method FirstFree(s: Scheme, taken: set<string>) returns (r: string)
    requires !s.Unique?
    ensures r == Chosen(s, taken)
    ensures if SomeFree(s, Tries(s), taken) then IsFirstFree(s, Tries(s), taken, r)
            else r == Candidate(s, Tries(s) - 1)
    ensures s.Trash? && AllTaken(s, 10000, taken) ==> r == Candidate(s, 9999)
    ensures s.Duplicate? && AllTaken(s, 999, taken) ==> r == Candidate(s, 998)
  {
    hide Candidate, Candidates, SomeFree, IsFirstFree;
    ChosenIsFirst(s, taken);
    r := Candidate(s, 0);
    var i := 0;
    while i < Tries(s)
      invariant i <= Tries(s)
      invariant AllTaken(s, i, taken)
      invariant i > 0 ==> r == Candidate(s, i - 1)
    {
      r := Candidate(s, i);
      ChosenFromSkips(s, 0, i, taken);
      if r !in taken { return; }
      i := i + 1;
    }
    ChosenFromSkips(s, 0, i - 1, taken);
  }

  /** The loop of uniqueName: its guard leaves after 9999 checks, returning the last candidate unchecked. */
  method UniqueName(base: string, suffix: string, taken: set<string>) returns (r: string)
    ensures var s := Unique(base, suffix);
            if SomeFree(s, Tries(s), taken) then IsFirstFree(s, Tries(s), taken, r)
            else r == Candidate(s, Tries(s) - 1)
    ensures |taken| < 10000 ==> r !in taken
    ensures AllTaken(Unique(base, suffix), 9999, taken) ==> r == Candidate(Unique(base, suffix), 9999)
  {
    hide Decimal;
    ghost var s := Unique(base, suffix);
    if |taken| < 10000 { FewerTakenThanTried(s, 10000, taken); }
    r := base + suffix;
    var i := 2;
    while r in taken
      invariant 2 <= i <= 10000
      invariant AllTaken(s, i - 2, taken)
      invariant r == Candidate(s, i - 2)
      decreases 10000 - i
    {
      assert AllTaken(s, i - 1, taken);
      r := Numbered(base, " (", i, suffix);
      assert r == Candidate(s, i - 1);
      i := i + 1;
      if i > 10000 { break; }
    }
    assert r == Candidate(s, i - 2);
  }
}
