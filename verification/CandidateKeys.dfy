/** The identity keys of a discovery candidate's evidence. */
module CandidateKeys {
  import Text

  /** `mqtt_device_slug` may be missing, explicitly null, or a string. */
  datatype Slug = Missing | Null | Slug(text: string)

  datatype Evidence = Evidence(
    identityKeys: seq<string>,
    networkMacs: seq<string>,
    hostnames: seq<string>,
    mqttSlug: Slug,
    reconciled: bool,
    sourceEvidence: map<string, Evidence>,
    other: map<string, string>)

  function MacChar(c: char): string {
    var l := Text.LowerChar(c);
    if Text.IsAlnum(l) then [l] else ""
  }

  function NormalizeMac(s: string): string {
    if s == "" then "" else NormalizeMac(s[..|s| - 1]) + MacChar(s[|s| - 1])
  }

  /** A character of a slug: lower-case alphanumeric, or a dash for anything else. */
  function SlugChar(c: char): char {
    if Text.IsAlnum(c) then Text.LowerChar(c) else '-'
  }

  /** Drops every dash that follows a dash, which is where the replace loop ends. */
  function CollapseDashes(s: string): (r: string)
    ensures forall c :: c in r ==> c in s
  {
    if |s| < 2 then s
    else if s[0] == '-' && s[1] == '-' then CollapseDashes(s[1..])
    else [s[0]] + CollapseDashes(s[1..])
  }

  function TrimDashes(s: string): (r: string)
    ensures forall c :: c in r ==> c in s
    decreases |s|
  {
    if s != "" && s[0] == '-' then TrimDashes(s[1..])
    else if s != "" && s[|s| - 1] == '-' then TrimDashes(s[..|s| - 1])
    else s
  }

  function NormalizeText(s: string): string {
    var stripped := Text.Strip(s);
    CollapseDashes(TrimDashes(seq(|stripped|, i requires 0 <= i < |stripped| => SlugChar(stripped[i]))))
  }

  function SlugText(slug: Slug): string {
    match slug
    case Missing => ""
    case Null => "None"
    case Slug(text) => text
  }

  function RawKeys(raws: seq<string>): set<string> {
    set raw | raw in raws && Text.Strip(raw) != "" :: Text.Lower(Text.Strip(raw))
  }

  function MacKeys(macs: seq<string>): set<string> {
    set mac | mac in macs && NormalizeMac(mac) != "" :: "mac:" + NormalizeMac(mac)
  }

  function SlugKeys(slug: Slug): set<string> {
    var text := Text.Strip(SlugText(slug));
    if text == "" then {} else {"mqtt-slug:" + NormalizeText(text)}
  }

  function IdentityKeys(e: Evidence): set<string> {
    RawKeys(e.identityKeys) + MacKeys(e.networkMacs) + SlugKeys(e.mqttSlug)
  }

  method CollectIdentityKeys(e: Evidence) returns (keys: set<string>)
    ensures keys == IdentityKeys(e)
  {
    hide NormalizeText, NormalizeMac, Text.Strip, Text.Lower;
    keys := {};
    for n := 0 to |e.identityKeys|
      invariant keys == RawKeys(e.identityKeys[..n])
    {
      assert e.identityKeys[..n + 1] == e.identityKeys[..n] + [e.identityKeys[n]];
      var stripped := Text.Strip(e.identityKeys[n]);
      if stripped != "" {
        keys := keys + {Text.Lower(stripped)};
      }
    }
    assert e.identityKeys[..|e.identityKeys|] == e.identityKeys;
    for n := 0 to |e.networkMacs|
      invariant keys == RawKeys(e.identityKeys) + MacKeys(e.networkMacs[..n])
    {
      assert e.networkMacs[..n + 1] == e.networkMacs[..n] + [e.networkMacs[n]];
      var normalized := NormalizeMac(e.networkMacs[n]);
      if normalized != "" {
        keys := keys + {"mac:" + normalized};
      }
    }
    assert e.networkMacs[..|e.networkMacs|] == e.networkMacs;
    var slug := Text.Strip(SlugText(e.mqttSlug));
    if slug != "" {
      keys := keys + {"mqtt-slug:" + NormalizeText(slug)};
    }
  }

  // ---- Keys survive being written back as identity keys ------------------------------

  /** A key that reading it back as an identity key leaves unchanged. */
  predicate Canonical(key: string) {
    key != "" && Text.Trimmed(key) && Text.IsLower(key)
  }

  lemma {:induction false} MacIsAlnum(s: string)
    ensures forall i :: 0 <= i < |NormalizeMac(s)| ==>
            Text.IsAlnum(NormalizeMac(s)[i]) && !Text.IsUpper(NormalizeMac(s)[i])
  {
    if s != "" {
      MacIsAlnum(s[..|s| - 1]);
    }
  }

  lemma {:induction false} MacOfConcat(a: string, b: string)
    ensures NormalizeMac(a + b) == NormalizeMac(a) + NormalizeMac(b)
  {
    if b == "" {
      assert a + b == a;
    } else {
      assert (a + b)[..|a + b| - 1] == a + b[..|b| - 1];
      MacOfConcat(a, b[..|b| - 1]);
    }
  }

  lemma {:induction false} MacOfSpaces(s: string)
    requires forall i :: 0 <= i < |s| ==> Text.IsSpace(s[i])
    ensures NormalizeMac(s) == ""
  {
    if s != "" {
      MacOfSpaces(s[..|s| - 1]);
    }
  }

  /** Outer whitespace does not matter to a MAC address. */
  lemma MacOfStripped(s: string)
    ensures NormalizeMac(Text.Strip(s)) == NormalizeMac(s)
  {
    hide Text.LStrip, Text.RStrip, NormalizeMac;
    var l := Text.LStrip(s);
    MacOfTail(s, l);
    MacOfHead(l, Text.RStrip(l));
  }

  lemma MacOfTail(s: string, tail: string)
    requires |tail| <= |s| && tail == s[|s| - |tail|..]
    requires forall i :: 0 <= i < |s| - |tail| ==> Text.IsSpace(s[i])
    ensures NormalizeMac(tail) == NormalizeMac(s)
  {
    hide NormalizeMac;
    var before := s[..|s| - |tail|];
    assert s == before + tail;
    MacOfConcat(before, tail);
    MacOfSpaces(before);
  }

  lemma MacOfHead(s: string, head: string)
    requires head <= s
    requires forall i :: |head| <= i < |s| ==> Text.IsSpace(s[i])
    ensures NormalizeMac(head) == NormalizeMac(s)
  {
    hide NormalizeMac;
    var after := s[|head|..];
    assert s == head + after;
    MacOfConcat(head, after);
    MacOfSpaces(after);
  }

  lemma RawKeyIsCanonical(raw: string)
    requires Text.Strip(raw) != ""
    ensures Canonical(Text.Lower(Text.Strip(raw)))
  {
    hide Text.Strip;
    var stripped := Text.Strip(raw);
    assert Text.Trimmed(stripped);
  }

  lemma PrefixedKeyIsCanonical(prefix: string, rest: string)
    requires prefix != "" && !Text.IsSpace(prefix[0]) && !Text.IsSpace(prefix[|prefix| - 1]) && Text.IsLower(prefix)
    requires forall i :: 0 <= i < |rest| ==> !Text.IsSpace(rest[i]) && !Text.IsUpper(rest[i])
    ensures Canonical(prefix + rest)
  {
  }

  lemma NormalTextIsPlain(s: string)
    ensures forall i :: 0 <= i < |NormalizeText(s)| ==>
            !Text.IsSpace(NormalizeText(s)[i]) && !Text.IsUpper(NormalizeText(s)[i])
  {
    var stripped := Text.Strip(s);
    var mapped := seq(|stripped|, i requires 0 <= i < |stripped| => SlugChar(stripped[i]));
    var r := NormalizeText(s);
    assert r == CollapseDashes(TrimDashes(mapped));
    forall i | 0 <= i < |r| ensures !Text.IsSpace(r[i]) && !Text.IsUpper(r[i]) {
      assert r[i] in mapped;
    }
  }

  lemma KeysAreCanonical(e: Evidence)
    ensures forall key :: key in IdentityKeys(e) ==> Canonical(key)
  {
    hide Text.Strip, Text.Lower, NormalizeMac, NormalizeText, Canonical;
    forall key | key in IdentityKeys(e) ensures Canonical(key) {
      if key in RawKeys(e.identityKeys) {
        var raw :| raw in e.identityKeys && Text.Strip(raw) != "" && key == Text.Lower(Text.Strip(raw));
        RawKeyIsCanonical(raw);
      } else if key in MacKeys(e.networkMacs) {
        var mac :| mac in e.networkMacs && NormalizeMac(mac) != "" && key == "mac:" + NormalizeMac(mac);
        MacIsAlnum(mac);
        PrefixedKeyIsCanonical("mac:", NormalizeMac(mac));
      } else {
        var text := Text.Strip(SlugText(e.mqttSlug));
        NormalTextIsPlain(text);
        PrefixedKeyIsCanonical("mqtt-slug:", NormalizeText(text));
      }
    }
  }

  lemma CanonicalReadsBack(keys: seq<string>)
    requires forall key :: key in keys ==> Canonical(key)
    ensures RawKeys(keys) == set key | key in keys
  {
    forall key | key in keys ensures Text.Strip(key) == key && Text.Lower(Text.Strip(key)) == key {
      Text.LowerOfLower(key);
    }
  }

  // ---- When slugs collide ------------------------------------------------------------

  predicate Blank(s: string) {
    Text.Strip(s) == ""
  }

  /** Two MQTT slugs give a common key exactly when neither is blank and they normalize to the same
      text. */
  lemma SlugsCollideIff(a: Slug, b: Slug)
    ensures SlugKeys(a) * SlugKeys(b) != {} <==>
            !Blank(SlugText(a)) && !Blank(SlugText(b)) && NormalizeText(SlugText(a)) == NormalizeText(SlugText(b))
  {
    hide Text.Strip, CollapseDashes, TrimDashes;
    var p, q := Text.Strip(SlugText(a)), Text.Strip(SlugText(b));
    assert NormalizeText(p) == NormalizeText(SlugText(a)) && NormalizeText(q) == NormalizeText(SlugText(b));
    if p != "" && q != "" {
      PrefixIsInjective("mqtt-slug:", NormalizeText(p), NormalizeText(q));
      if NormalizeText(p) == NormalizeText(q) {
        assert "mqtt-slug:" + NormalizeText(p) in SlugKeys(a) * SlugKeys(b);
      }
    }
  }

  lemma PrefixIsInjective(prefix: string, a: string, b: string)
    ensures prefix + a == prefix + b <==> a == b
  {
    assert (prefix + a)[|prefix|..] == a && (prefix + b)[|prefix|..] == b;
  }

  predicate Symbols(s: string) {
    forall i :: 0 <= i < |s| ==> !Text.IsAlnum(s[i])
  }

  /** A slug of symbols only normalizes to nothing, and so collides with every other such slug. */
  lemma SymbolSlugsCollide(a: string, b: string)
    requires Symbols(a) && Symbols(b) && !Blank(a) && !Blank(b)
    ensures SlugKeys(Slug(a)) == SlugKeys(Slug(b)) == {"mqtt-slug:"}
  {
    hide Text.Strip, CollapseDashes, TrimDashes, NormalizeText;
    SymbolsVanish(a);
    SymbolsVanish(b);
    assert Text.Strip(Text.Strip(a)) == Text.Strip(a) && Text.Strip(Text.Strip(b)) == Text.Strip(b);
    SymbolsVanish(Text.Strip(a));
    SymbolsVanish(Text.Strip(b));
    assert "mqtt-slug:" + "" == "mqtt-slug:";
  }

  lemma SymbolsVanish(s: string)
    requires forall c :: c in s ==> !Text.IsAlnum(c)
    ensures NormalizeText(s) == ""
  {
    hide Text.Strip;
    var stripped := Text.Strip(s);
    var dashes := seq(|stripped|, i requires 0 <= i < |stripped| => SlugChar(stripped[i]));
    forall i | 0 <= i < |dashes| ensures dashes[i] == '-' {
      assert stripped[i] in s;
    }
    DashesVanish(dashes);
  }

  lemma {:induction false} DashesVanish(s: string)
    requires forall i :: 0 <= i < |s| ==> s[i] == '-'
    ensures TrimDashes(s) == ""
  {
    if s != "" { DashesVanish(s[1..]); }
  }

  // ---- What normalizing keeps --------------------------------------------------------

  predicate LowerAlnum(s: string) {
    forall i :: 0 <= i < |s| ==> Text.IsAlnum(s[i]) && !Text.IsUpper(s[i])
  }

  /** A MAC address is kept as it is exactly when it is written in lower-case letters and digits. */
  lemma MacFixesExactlyBare(s: string)
    ensures NormalizeMac(s) == s <==> LowerAlnum(s)
  {
    hide NormalizeMac;
    MacIsAlnum(s);
    if LowerAlnum(s) { MacKeepsBare(s); }
  }

  lemma {:induction false} MacKeepsBare(s: string)
    requires LowerAlnum(s)
    ensures NormalizeMac(s) == s
  {
    if s != "" {
      var front, last := s[..|s| - 1], s[|s| - 1];
      MacKeepsBare(front);
      assert MacChar(last) == [last];
      assert s == front + [last];
    }
  }

  /** Capitals do not matter to it. */
  lemma {:induction false} MacIgnoresCase(s: string)
    ensures NormalizeMac(Text.Lower(s)) == NormalizeMac(s)
  {
    if s != "" {
      MacIgnoresCase(s[..|s| - 1]);
      assert Text.Lower(s)[..|s| - 1] == Text.Lower(s[..|s| - 1]);
    }
  }

  /** Nor do separators: every other character is dropped, wherever it stands. */
  lemma MacIgnoresSeparators(before: string, c: char, after: string)
    requires !Text.IsAlnum(c)
    ensures NormalizeMac(before + [c] + after) == NormalizeMac(before + after)
  {
    hide NormalizeMac;
    MacOfConcat(before, after);
    MacOfConcat(before + [c], after);
    MacOfConcat(before, [c]);
    SeparatorVanishes(c);
  }

  lemma SeparatorVanishes(c: char)
    requires !Text.IsAlnum(c)
    ensures NormalizeMac([c]) == ""
  {
    assert [c][..0] == "";
  }

  /** The address without separators, letter by letter. */
  function Bare(s: string): (r: string)
    ensures LowerAlnum(r)
  {
    if s == "" then ""
    else if Text.IsAlnum(s[0]) then [Text.LowerChar(s[0])] + Bare(s[1..])
    else Bare(s[1..])
  }

  /** So two addresses get one key exactly when they agree letter by letter. */
  lemma {:induction false} MacIsBare(s: string)
    ensures NormalizeMac(s) == Bare(s)
  {
    if s != "" {
      var c := s[0];
      MacIsBare(s[1..]);
      assert s == [c] + s[1..] && [c][..0] == "";
      MacOfConcat([c], s[1..]);
      assert NormalizeMac([c]) == if Text.IsAlnum(c) then [Text.LowerChar(c)] else "";
    }
  }

  /** Lower-case alphanumeric words joined by single dashes. */
  predicate IsSlug(s: string) {
    && (forall i :: 0 <= i < |s| ==> s[i] == '-' || (Text.IsAlnum(s[i]) && !Text.IsUpper(s[i])))
    && (s != "" ==> s[0] != '-' && s[|s| - 1] != '-')
    && (forall i :: 0 < i < |s| ==> !(s[i - 1] == '-' && s[i] == '-'))
  }

  lemma {:induction false} CollapsedIsSlug(s: string)
    requires s != "" ==> s[|s| - 1] != '-'
    ensures
      var r := CollapseDashes(s);
      && (s != "" ==> r != "" && r[0] == s[0] && r[|r| - 1] == s[|s| - 1])
      && (forall i :: 0 < i < |r| ==> !(r[i - 1] == '-' && r[i] == '-'))
      && ((forall i :: 0 < i < |s| ==> !(s[i - 1] == '-' && s[i] == '-')) ==> r == s)
  {
    if |s| >= 2 {
      CollapsedIsSlug(s[1..]);
      if !(s[0] == '-' && s[1] == '-') {
        var rest := CollapseDashes(s[1..]);
        forall i | 0 < i < |rest| + 1 ensures !(([s[0]] + rest)[i - 1] == '-' && ([s[0]] + rest)[i] == '-') {
          if i == 1 { assert rest[0] == s[1]; }
        }
      }
    }
  }

  lemma {:induction false} TrimmedEnds(s: string)
    ensures var r := TrimDashes(s); r != "" ==> r[0] != '-' && r[|r| - 1] != '-'
    ensures (s != "" ==> s[0] != '-' && s[|s| - 1] != '-') ==> TrimDashes(s) == s
    decreases |s|
  {
    if s != "" && s[0] == '-' {
      TrimmedEnds(s[1..]);
    } else if s != "" && s[|s| - 1] == '-' {
      TrimmedEnds(s[..|s| - 1]);
    }
  }

  function Dashed(s: string): (r: string)
    ensures |r| == |s| && forall i :: 0 <= i < |r| ==> r[i] == SlugChar(s[i])
  {
    seq(|s|, i requires 0 <= i < |s| => SlugChar(s[i]))
  }

  lemma NormalizeTextIs(s: string)
    ensures NormalizeText(s) == CollapseDashes(TrimDashes(Dashed(Text.Strip(s))))
  {
    var stripped := Text.Strip(s);
    assert Dashed(stripped) == seq(|stripped|, i requires 0 <= i < |stripped| => SlugChar(stripped[i]));
  }

  /** Normalizing always gives a slug, and keeps a text as it is exactly when it is one. */
  lemma NormalizeFixesExactlySlugs(s: string)
    ensures IsSlug(NormalizeText(s))
    ensures NormalizeText(s) == s <==> IsSlug(s)
  {
    hide Text.Strip, CollapseDashes, TrimDashes;
    NormalizeTextIs(s);
    var dashed := Dashed(Text.Strip(s));
    var trimmed := TrimDashes(dashed);
    TrimmedEnds(dashed);
    CollapsedIsSlug(trimmed);
    var r := CollapseDashes(trimmed);
    forall i | 0 <= i < |r| ensures r[i] == '-' || (Text.IsAlnum(r[i]) && !Text.IsUpper(r[i])) {
      assert r[i] in trimmed && r[i] in dashed;
    }
    if trimmed == "" { CollapsedNothing(); }
    if IsSlug(s) {
      assert Text.Trimmed(s);
      assert dashed == s;
    }
  }

  lemma CollapsedNothing()
    ensures CollapseDashes("") == ""
  {
  }
}
