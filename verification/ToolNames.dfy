/** External tool names: every tool gets its own name that providers accept, and the name leads
    back to the tool. */
module ToolNames {
  import opened Wrappers
  import Text
  import Counting

  const MAX_NAME := 64
  const MAX_BASE := 58

  predicate IsNameChar(c: char) {
    'a' <= c <= 'z' || 'A' <= c <= 'Z' || '0' <= c <= '9' || c == '_' || c == '-'
  }

  predicate IsName(s: string) {
    forall i :: 0 <= i < |s| ==> IsNameChar(s[i])
  }

  function Take(s: string, n: nat): string {
    if |s| <= n then s else s[..n]
  }

  /** Replaces each other character by two underscores. */
  function Sanitized(s: string): (r: string)
    ensures IsName(r)
    ensures |r| >= |s|
  {
    if s == "" then "" else
    (if IsNameChar(s[0]) then [s[0]] else "__") + Sanitized(s[1..])
  }

  function ProviderToolName(name: string): (r: string)
    ensures IsName(r) && |r| <= MAX_NAME
    ensures name != "" ==> r != ""
  {
    Take(Sanitized(name), MAX_NAME)
  }

  function Suffixed(base: string, suffix: nat): string {
    base + "_" + Text.Decimal(suffix)
  }

  lemma SuffixedInjective(base: string, m: nat, n: nat)
    requires Suffixed(base, m) == Suffixed(base, n)
    ensures m == n
  {
    hide Text.Decimal;
    assert Suffixed(base, m)[|base| + 1..] == Text.Decimal(m);
    assert Suffixed(base, n)[|base| + 1..] == Text.Decimal(n);
    Text.DecimalInjective(m, n);
  }

  /** The suffixed names from 2 up to but excluding `suffix`. */
  function Tried(base: string, suffix: nat): (r: set<string>)
    requires suffix >= 2
  {
    set n | 2 <= n < suffix :: Suffixed(base, n)
  }

  lemma {:induction false} TriedCount(base: string, suffix: nat)
    requires suffix >= 2
    ensures |Tried(base, suffix)| == suffix - 2
  {
    hide Suffixed;
    if suffix > 2 {
      TriedCount(base, suffix - 1);
      var last := Suffixed(base, suffix - 1);
      forall n | 2 <= n < suffix - 1 ensures Suffixed(base, n) != last {
        if Suffixed(base, n) == last { SuffixedInjective(base, n, suffix - 1); }
      }
      assert Tried(base, suffix) == Tried(base, suffix - 1) + {last};
    } else {
      assert Tried(base, suffix) == {};
    }
  }

  /** Suffixes already in use cannot outnumber the used names: the search ends. */
  lemma TriedFit(base: string, suffix: nat, used: set<string>)
    requires suffix >= 2 && forall n :: 2 <= n < suffix ==> Suffixed(base, n) in used
    ensures suffix - 2 <= |used|
  {
    hide Suffixed;
    TriedCount(base, suffix);
    Counting.SubsetCount(Tried(base, suffix), used);
  }

  /** The least unused suffix from 2 on. */
  method FindSuffix(base: string, used: set<string>) returns (suffix: nat)
    ensures 2 <= suffix <= |used| + 2
    ensures Suffixed(base, suffix) !in used
    ensures forall n :: 2 <= n < suffix ==> Suffixed(base, n) in used
  {
    hide Suffixed;
    suffix := 2;
    while Suffixed(base, suffix) in used
      invariant suffix >= 2 && suffix - 2 <= |used|
      invariant forall n :: 2 <= n < suffix ==> Suffixed(base, n) in used
      decreases |used| + 2 - suffix
    {
      TriedFit(base, suffix + 1, used);
      suffix := suffix + 1;
    }
  }

  lemma SuffixedIsShortName(base: string, suffix: nat)
    requires IsName(base) && |base| <= MAX_BASE
    ensures IsName(Suffixed(base, suffix)) && Suffixed(base, suffix) != ""
    ensures suffix < 100_000 ==> |Suffixed(base, suffix)| <= MAX_NAME
  {
    hide Text.Decimal;
    if suffix < 100_000 {
      assert Text.Power10(5) == 100_000 by {
        assert Text.Power10(1) == 10 && Text.Power10(2) == 100 && Text.Power10(3) == 1000 && Text.Power10(4) == 10_000;
      }
      Text.DecimalLength(suffix, 5, 100_000);
    }
    var r := Suffixed(base, suffix);
    forall i | 0 <= i < |r| ensures IsNameChar(r[i]) {
      if i > |base| { assert r[i] == Text.Decimal(suffix)[i - |base| - 1]; }
    }
  }

  /** An entry of the ordered name map. */
  datatype Entry = Entry(external: string, canonical: string)

  predicate DistinctExternals(entries: seq<Entry>) {
    forall i, j :: 0 <= i < j < |entries| ==> entries[i].external != entries[j].external
  }

  /** The canonical names the map is built for: trimmed, blanks left out. */
  function Canonicals(names: seq<string>): seq<string> {
    if names == [] then [] else
    var canonical := Text.Strip(names[|names| - 1]);
    Canonicals(names[..|names| - 1]) + if canonical == "" then [] else [canonical]
  }

  function CanonicalsOf(entries: seq<Entry>): (r: seq<string>)
    ensures |r| == |entries| && forall i :: 0 <= i < |r| ==> r[i] == entries[i].canonical
  {
    seq(|entries|, i requires 0 <= i < |entries| => entries[i].canonical)
  }

  function ExternalsOf(entries: seq<Entry>): (r: set<string>)
    ensures forall x :: x in r <==> exists i :: 0 <= i < |entries| && entries[i].external == x
  {
    set i | 0 <= i < |entries| :: entries[i].external
  }

  lemma ExternalsExtend(entries: seq<Entry>, e: Entry)
    ensures ExternalsOf(entries + [e]) == ExternalsOf(entries) + {e.external}
  {
    var longer := entries + [e];
    forall x ensures x in ExternalsOf(longer) <==> x in ExternalsOf(entries) || x == e.external {
      if x in ExternalsOf(entries) {
        var i :| 0 <= i < |entries| && entries[i].external == x;
        assert longer[i].external == x;
      }
      if x == e.external { assert longer[|entries|].external == x; }
    }
  }

  lemma {:induction false} ExternalsCount(entries: seq<Entry>)
    ensures |ExternalsOf(entries)| <= |entries|
  {
    if entries == [] {
      assert ExternalsOf(entries) == {};
    } else {
      var front := entries[..|entries| - 1];
      ExternalsCount(front);
      assert entries == front + [entries[|entries| - 1]];
      ExternalsExtend(front, entries[|entries| - 1]);
    }
  }

  /** Each name uses allowed characters only, and is the plainly sanitized one unless an earlier
      tool has that already. */
  ghost predicate AllNamed(entries: seq<Entry>) {
    forall i :: 0 <= i < |entries| ==>
      && IsName(entries[i].external) && entries[i].external != ""
      && (entries[i].external == ProviderToolName(entries[i].canonical) ||
          TakenBefore(entries, i, ProviderToolName(entries[i].canonical)))
  }

  ghost predicate TakenBefore(entries: seq<Entry>, i: nat, external: string)
    requires i <= |entries|
  {
    exists j :: 0 <= j < i && entries[j].external == external
  }

  lemma NothingNamed()
    ensures AllNamed([]) && DistinctExternals([]) && ExternalsOf([]) == {}
  {
  }

  lemma NamedExtend(entries: seq<Entry>, e: Entry)
    requires AllNamed(entries) && DistinctExternals(entries)
    requires e.external !in ExternalsOf(entries) && IsName(e.external) && e.external != ""
    requires e.external == ProviderToolName(e.canonical) || ProviderToolName(e.canonical) in ExternalsOf(entries)
    ensures AllNamed(entries + [e]) && DistinctExternals(entries + [e])
  {
    hide ProviderToolName, IsName;
    var longer := entries + [e];
    forall i | 0 <= i < |entries| ensures longer[i] == entries[i] && entries[i].external in ExternalsOf(entries) {}
    forall i | 0 <= i < |longer|
      ensures longer[i].external == ProviderToolName(longer[i].canonical) ||
              TakenBefore(longer, i, ProviderToolName(longer[i].canonical))
    {
      var own := ProviderToolName(longer[i].canonical);
      if i < |entries| {
        if longer[i].external != own {
          assert TakenBefore(entries, i, own);
          var j :| 0 <= j < i && entries[j].external == own;
          assert longer[j].external == own;
        }
      } else if e.external != own {
        var j :| 0 <= j < |entries| && entries[j].external == own;
        assert longer[j].external == own;
      }
    }
  }

  /** The plain name, or a suffixed form of its first 58 characters; only a suffix of more than five
      digits makes a name longer than the limit. */
  ghost predicate WellFormedName(e: Entry) {
    e.external == ProviderToolName(e.canonical) ||
    exists suffix: nat :: suffix >= 2 && IsSuffixed(e, suffix) &&
      (|Text.Decimal(suffix)| <= 5 ==> |e.external| <= MAX_NAME)
  }

  predicate IsSuffixed(e: Entry, suffix: nat) {
    e.external == Suffixed(Take(ProviderToolName(e.canonical), MAX_BASE), suffix)
  }

  ghost predicate AllWellFormed(entries: seq<Entry>) {
    forall i :: 0 <= i < |entries| ==> WellFormedName(entries[i])
  }

  /** Every non-blank tool, in order, gets its own external name; the names are distinct, made of
      allowed characters only, and within the limit unless their suffix has more than five digits,
      which takes a hundred thousand tools. */
  method ProviderToolNameMap(names: seq<string>) returns (entries: seq<Entry>)
    ensures CanonicalsOf(entries) == Canonicals(names)
    ensures DistinctExternals(entries) && AllNamed(entries) && AllWellFormed(entries)
    ensures |names| < 99_998 ==> forall i :: 0 <= i < |entries| ==> |entries[i].external| <= MAX_NAME
  {
    hide Text.Strip, ProviderToolName, AllNamed, DistinctExternals, WellFormedName;
    entries := [];
    NothingNamed();
    var used: set<string> := {};
    for n := 0 to |names|
      invariant |entries| <= n
      invariant used == ExternalsOf(entries)
      invariant CanonicalsOf(entries) == Canonicals(names[..n])
      invariant DistinctExternals(entries) && AllNamed(entries) && AllWellFormed(entries)
      invariant |names| < 99_998 ==> forall i :: 0 <= i < |entries| ==> |entries[i].external| <= MAX_NAME
    {
      assert names[..n + 1][..n] == names[..n];
      var canonical := Text.Strip(names[n]);
      if canonical != "" {
        var external := ExternalFor(canonical, used, entries);
        ExternalsExtend(entries, Entry(external, canonical));
        NamedExtend(entries, Entry(external, canonical));
        used := used + {external};
        entries := entries + [Entry(external, canonical)];
      }
    }
    assert names[..|names|] == names;
  }

  /** The external name of one more tool. */
  method ExternalFor(canonical: string, used: set<string>, ghost entries: seq<Entry>) returns (external: string)
    requires canonical != "" && used == ExternalsOf(entries)
    ensures external !in used && IsName(external) && external != ""
    ensures |entries| < 99_998 ==> |external| <= MAX_NAME
    ensures external == ProviderToolName(canonical) || ProviderToolName(canonical) in used
    ensures WellFormedName(Entry(external, canonical))
  {
    hide Sanitized, Text.Decimal;
    external := ProviderToolName(canonical);
    if external in used {
      var base := Take(external, MAX_BASE);
      var suffix := FindSuffix(base, used);
      ExternalsCount(entries);
      SuffixedIsShortName(base, suffix);
      external := Suffixed(base, suffix);
      assert IsSuffixed(Entry(external, canonical), suffix);
    }
  }

  function Lookup(entries: seq<Entry>, external: string): Option<string> {
    if entries == [] then None
    else if entries[|entries| - 1].external == external then Some(entries[|entries| - 1].canonical)
    else Lookup(entries[..|entries| - 1], external)
  }

  /** The first external name mapped to the canonical name; a name that is not in the map is only
      sanitized. */
  method ProviderNameForTool(canonical: string, entries: seq<Entry>) returns (external: string)
    requires DistinctExternals(entries)
    ensures canonical in CanonicalsOf(entries) ==> Lookup(entries, external) == Some(canonical)
    ensures canonical !in CanonicalsOf(entries) ==> external == ProviderToolName(canonical)
  {
    for i := 0 to |entries|
      invariant forall j :: 0 <= j < i ==> entries[j].canonical != canonical
    {
      if entries[i].canonical == canonical {
        assert CanonicalsOf(entries)[i] == canonical;
        LookupFinds(entries, i);
        return entries[i].external;
      }
    }
    external := ProviderToolName(canonical);
  }

  lemma {:induction false} LookupFinds(entries: seq<Entry>, i: nat)
    requires DistinctExternals(entries) && i < |entries|
    ensures Lookup(entries, entries[i].external) == Some(entries[i].canonical)
  {
    if i < |entries| - 1 {
      LookupFinds(entries[..|entries| - 1], i);
    }
  }

  lemma {:induction false} CanonicalsAreStripped(names: seq<string>)
    ensures forall c :: c in Canonicals(names) <==> c != "" && exists i :: 0 <= i < |names| && Text.Strip(names[i]) == c
  {
    hide Text.Strip;
    if names != [] {
      var n := |names| - 1;
      CanonicalsAreStripped(names[..n]);
      forall c ensures c in Canonicals(names) <==>
        c != "" && exists i :: 0 <= i < |names| && Text.Strip(names[i]) == c {
        if i :| 0 <= i < |names| && Text.Strip(names[i]) == c && i < n {
          assert Text.Strip(names[..n][i]) == c;
        }
        if i :| 0 <= i < n && Text.Strip(names[..n][i]) == c {
          assert Text.Strip(names[i]) == c;
        }
      }
    }
  }

  /** The entries are a name map for the tools listed. */
  ghost predicate IsMapFor(entries: seq<Entry>, names: seq<string>) {
    CanonicalsOf(entries) == Canonicals(names) && DistinctExternals(entries) && AllNamed(entries)
  }

  lemma {:induction false} LookupIsListed(entries: seq<Entry>, external: string)
    ensures Lookup(entries, external).Some? ==> Lookup(entries, external).value in CanonicalsOf(entries)
  {
    if entries != [] {
      var front := entries[..|entries| - 1];
      LookupIsListed(front, external);
      if Lookup(front, external).Some? {
        var i :| 0 <= i < |front| && CanonicalsOf(front)[i] == Lookup(front, external).value;
        assert CanonicalsOf(entries)[i] == CanonicalsOf(front)[i];
      }
      assert CanonicalsOf(entries)[|entries| - 1] == entries[|entries| - 1].canonical;
    }
  }

  /** The round trip: a listed tool is found again under its external name exactly when its name is not
      blank and carries no outer whitespace. A name that does carry some is only sanitized, because the
      map holds its trimmed form; what is found under it, if anything, is another tool. */
  method RoundTrip(names: seq<string>, k: nat) returns (external: string, entries: seq<Entry>)
    requires k < |names|
    ensures IsMapFor(entries, names)
    ensures Lookup(entries, external) == Some(names[k]) <==> names[k] != "" && Text.Trimmed(names[k])
    ensures !Text.Trimmed(names[k]) ==> external == ProviderToolName(names[k])
    ensures Lookup(entries, external).Some? ==> Lookup(entries, external).value in Canonicals(names)
  {
    hide Sanitized, AllNamed;
    entries := ProviderToolNameMap(names);
    CanonicalsAreStripped(names);
    if Text.Trimmed(names[k]) {
      assert Text.Strip(names[k]) == names[k];
    } else {
      assert names[k] !in Canonicals(names);
    }
    external := ProviderNameForTool(names[k], entries);
    LookupIsListed(entries, external);
  }

  /** Another tool can indeed answer: among the tools " x" and "__x", the untrimmed first one is
      sanitized to the name of the second. */
  lemma AnotherToolAnswers(entries: seq<Entry>)
    requires IsMapFor(entries, [" x", "__x"])
    ensures ProviderToolName(" x") == "__x" && Lookup(entries, "__x") == Some("__x")
  {
    hide Text.Strip, ProviderToolName;
    StripOfSpaceX();
    assert Text.Strip("__x") == "__x";
    CanonicalsOfTwo(" x", "__x");
    PlainNames();
    assert CanonicalsOf(entries) == ["x", "__x"];
    assert CanonicalsOf(entries)[0] == entries[0].canonical && CanonicalsOf(entries)[1] == entries[1].canonical;
    assert entries[0].external == "x";
    assert entries[1].external == "__x";
    LookupFinds(entries, 1);
  }

  lemma StripOfSpaceX()
    ensures Text.Strip(" x") == "x"
  {
    hide Text.LStrip, Text.RStrip;
    var s, t := " x", "x";
    var l, r := Text.LStrip(s), Text.RStrip(t);
    assert s[0] == ' ' && s[1] == 'x' && t[0] == 'x' && !Text.IsSpace('x') && Text.IsSpace(' ');
    assert |l| == 1;
    assert l == t;
    assert |r| == 1;
  }

  lemma PlainNames()
    ensures ProviderToolName("x") == "x" && ProviderToolName("__x") == "__x" && ProviderToolName(" x") == "__x"
  {
    assert Sanitized("") == "";
    assert Sanitized("x") == "x";
    assert Sanitized("_x") == "_x";
    assert Sanitized("__x") == "__x";
    assert Sanitized(" x") == "__x";
  }

  lemma CanonicalsOfTwo(a: string, b: string)
    requires Text.Strip(a) != "" && Text.Strip(b) != ""
    ensures Canonicals([a, b]) == [Text.Strip(a), Text.Strip(b)]
  {
    hide Text.Strip;
    assert [a, b][..1] == [a] && [a][..0] == [];
    assert Canonicals([a]) == [Text.Strip(a)];
  }

  /** An allowed name within the limit is used as it is; any other character takes two underscores. */
  lemma {:induction false} SanitizedKeeps(s: string)
    ensures Sanitized(s) == s <==> IsName(s)
    ensures |Sanitized(s)| == |s| + Disallowed(s)
  {
    if s != "" {
      SanitizedKeeps(s[1..]);
      assert s == [s[0]] + s[1..];
    }
  }

  function Disallowed(s: string): nat {
    if s == "" then 0 else (if IsNameChar(s[0]) then 0 else 1) + Disallowed(s[1..])
  }

  lemma {:induction false} SanitizedConcat(a: string, b: string)
    ensures Sanitized(a + b) == Sanitized(a) + Sanitized(b)
  {
    if a == "" {
      assert a + b == b;
    } else {
      assert (a + b)[1..] == a[1..] + b;
      SanitizedConcat(a[1..], b);
    }
  }

  /** Wherever it stands, a disallowed character becomes two underscores and everything else is kept. */
  lemma SanitizedReplaces(before: string, c: char, after: string)
    requires IsName(before) && IsName(after) && !IsNameChar(c)
    ensures Sanitized(before + [c] + after) == before + "__" + after
  {
    SanitizedConcat(before + [c], after);
    SanitizedConcat(before, [c]);
    SanitizedKeeps(before);
    SanitizedKeeps(after);
    assert Sanitized([c]) == "__" by {
      assert [c][1..] == "";
    }
  }

  /** The external name is the sanitized one, cut to its first 64 characters when it is longer. */
  lemma NameIsPrefix(name: string)
    ensures ProviderToolName(name) <= Sanitized(name)
    ensures |Sanitized(name)| <= 64 ==> ProviderToolName(name) == Sanitized(name)
    ensures |Sanitized(name)| > 64 ==> |ProviderToolName(name)| == 64
  {
    hide Sanitized;
  }

  /** Allowed are the letters, the digits, underscore and dash. */
  lemma AllowedCharacters(c: char)
    ensures IsNameChar(c) <==>
              c in "abcdefghijklmnopqrstuvwxyz" || c in "ABCDEFGHIJKLMNOPQRSTUVWXYZ" || c in "0123456789" || c in "_-"
  {
    InLower(c);
    InUpper(c);
    InDigits(c);
  }

  lemma InLower(c: char)
    ensures 'a' <= c <= 'z' <==> c in "abcdefghijklmnopqrstuvwxyz"
  {
    var letters := "abcdefghijklmnopqrstuvwxyz";
    if 'a' <= c <= 'z' {
      assert letters[c as int - 97] == c;
    }
  }

  lemma InUpper(c: char)
    ensures 'A' <= c <= 'Z' <==> c in "ABCDEFGHIJKLMNOPQRSTUVWXYZ"
  {
    var letters := "ABCDEFGHIJKLMNOPQRSTUVWXYZ";
    if 'A' <= c <= 'Z' {
      assert letters[c as int - 65] == c;
    }
  }

  lemma InDigits(c: char)
    ensures '0' <= c <= '9' <==> c in "0123456789"
  {
    var digits := "0123456789";
    if '0' <= c <= '9' {
      assert digits[c as int - 48] == c;
    }
  }
}
