/** The sections of a README (infra/generate_furnished_page.py): the canonical level-two sections, and the
    fallback that completes them from other headings when a required one is missing. Lower-casing a
    character is a parameter. */
module SectionFallback {
  import opened Options
  import opened PyText
  import opened Markdown

  type Lower = char -> string

  datatype Section = Section(heading: string, body: string)

  const REQUIRED := [
    "At a Glance", "Installation", "Dependencies", "Quick Start", "Key Capabilities", "API Reference",
    "Scope and Limitations"]

  const OPTIONAL := "Dependencies"

  const CAPABILITIES := "Key Capabilities"

  const ALIASES := map[
    "install" := "Installation", "installing" := "Installation", "gettingstarted" := "Installation",
    "setup" := "Installation", "installationandsetup" := "Installation",
    "usage" := "Quick Start", "quickstart" := "Quick Start", "quickstartguide" := "Quick Start",
    "basicusage" := "Quick Start", "gettingstartedwithcode" := "Quick Start", "examples" := "Quick Start",
    "exampleusage" := "Quick Start",
    "features" := "Key Capabilities", "keyfeatures" := "Key Capabilities", "capabilities" := "Key Capabilities",
    "supportedformats" := "Key Capabilities", "supportedfileformats" := "Key Capabilities",
    "whatitdoes" := "Key Capabilities", "highlights" := "Key Capabilities",
    "whythisexists" := "Key Capabilities", "overviewoffeatures" := "Key Capabilities",
    "api" := "API Reference", "apioverview" := "API Reference", "reference" := "API Reference",
    "documentation" := "API Reference", "supportedapi" := "API Reference", "classes" := "API Reference",
    "limitations" := "Scope and Limitations", "knownlimitations" := "Scope and Limitations",
    "notes" := "Scope and Limitations", "scope" := "Scope and Limitations",
    "compatibility" := "Scope and Limitations", "requirementsandlimitations" := "Scope and Limitations",
    "overview" := "At a Glance", "about" := "At a Glance", "introduction" := "At a Glance",
    "summary" := "At a Glance", "description" := "At a Glance"]

  const BOILERPLATE := {
    "contributing", "contribution", "license", "licence", "contact", "support", "codeofconduct", "security",
    "securitypolicy", "changelog", "releasenotes", "acknowledgements", "acknowledgments", "credits",
    "sponsors", "authors", "maintainers", "tableofcontents", "contents"}

  predicate IsKeyChar(c: char) { 'a' <= c <= 'z' || IsDigit(c) }

  function OnlyKeyChars(s: string): string {
    if s == "" then "" else (if IsKeyChar(s[0]) then [s[0]] else "") + OnlyKeyChars(s[1..])
  }

  /** The name in lower case, letters and digits only. */
  function SectionKey(lower: Lower, name: string): string {
    if name == "" then "" else OnlyKeyChars(lower(name[0])) + SectionKey(lower, name[1..])
  }

  /** The key of a name is put together character by character, */
  lemma {:induction false} SectionKeyAppend(lower: Lower, a: string, b: string)
    ensures SectionKey(lower, a + b) == SectionKey(lower, a) + SectionKey(lower, b)
  {
    hide OnlyKeyChars;
    if a == "" {
      assert a + b == b;
    } else {
      assert (a + b)[1..] == a[1..] + b;
      SectionKeyAppend(lower, a[1..], b);
      Assoc(OnlyKeyChars(lower(a[0])), SectionKey(lower, a[1..]), SectionKey(lower, b));
    }
  }

  /** and of each one the lower-case letters and digits are left: all of them, when it becomes one character. */
  lemma SectionKeyOfChar(lower: Lower, c: char, d: char)
    requires lower(c) == [d]
    ensures SectionKey(lower, [c]) == if 'a' <= d <= 'z' || '0' <= d <= '9' then [d] else ""
  {
    assert [c][1..] == "" && [d][1..] == "" && lower([c][0]) == [d];
    assert OnlyKeyChars([d]) == (if IsKeyChar(d) then [d] else "") + OnlyKeyChars([d][1..]);
    assert SectionKey(lower, [c]) == OnlyKeyChars([d]) + SectionKey(lower, [c][1..]);
  }

  lemma {:induction false} SectionKeyHasKeyChars(lower: Lower, name: string)
    ensures forall c :: c in SectionKey(lower, name) ==> 'a' <= c <= 'z' || '0' <= c <= '9'
  {
    hide OnlyKeyChars;
    if name != "" {
      OnlyKeyCharsIs(lower(name[0]));
      SectionKeyHasKeyChars(lower, name[1..]);
      var first, rest := OnlyKeyChars(lower(name[0])), SectionKey(lower, name[1..]);
      assert SectionKey(lower, name) == first + rest;
      forall c | c in first + rest ensures 'a' <= c <= 'z' || '0' <= c <= '9' {
        assert c in first || c in rest;
      }
    }
  }

  lemma {:induction false} OnlyKeyCharsIs(s: string)
    ensures forall c :: c in OnlyKeyChars(s) <==> c in s && ('a' <= c <= 'z' || '0' <= c <= '9')
  {
    if s != "" {
      OnlyKeyCharsIs(s[1..]);
      assert s == [s[0]] + s[1..];
    }
  }

  predicate HasText(body: string) { Strip(body, IsSpace) != "" }

  /** Some character of the body is no white space. */
  ghost predicate Shows(body: string) { exists i :: 0 <= i < |body| && !IsSpace(body[i]) }

  lemma HasTextIs(body: string)
    ensures HasText(body) <==> Shows(body)
  {
    StripEmpty(body, IsSpace);
  }

  /** The required name with this key (the last of the names, if two had the same key). */
  function Canonical(lower: Lower, key: string, names: seq<string>): (name: Option<string>)
    ensures name.Some? ==> name.value in names && SectionKey(lower, name.value) == key
    ensures name == None ==> forall n :: n in names ==> SectionKey(lower, n) != key
  {
    if names == [] then None
    else
      var last := names[|names| - 1];
      assert names == names[..|names| - 1] + [last];
      if SectionKey(lower, last) == key then Some(last) else Canonical(lower, key, names[..|names| - 1])
  }

  function CanonicalOf(lower: Lower, s: Section): Option<string> {
    Canonical(lower, SectionKey(lower, s.heading), REQUIRED)
  }

  function AliasOf(lower: Lower, s: Section): Option<string> {
    var key := SectionKey(lower, s.heading);
    if key in ALIASES then Some(ALIASES[key]) else None
  }

  predicate IsBoilerplate(lower: Lower, s: Section) { SectionKey(lower, s.heading) in BOILERPLATE }

  type Sections = map<string, string>

  /** Some required section other than the optional one is missing. */
  predicate Fires(sections: Sections) { exists name :: name in REQUIRED && name != OPTIONAL && name !in sections }

  /** The names without which the fallback runs. */
  lemma FiresExactly(sections: Sections)
    ensures Fires(sections) <==>
              || "At a Glance" !in sections || "Installation" !in sections || "Quick Start" !in sections
              || "Key Capabilities" !in sections || "API Reference" !in sections || "Scope and Limitations" !in sections
  {
    assert REQUIRED[0] == "At a Glance" && REQUIRED[1] == "Installation" && REQUIRED[2] == "Dependencies";
    assert REQUIRED[3] == "Quick Start" && REQUIRED[4] == "Key Capabilities";
    assert REQUIRED[5] == "API Reference" && REQUIRED[6] == "Scope and Limitations";
    assert OPTIONAL == REQUIRED[2];
    assert |"At a Glance"| == 11 && |"Installation"| == 12 && |"Quick Start"| == 11 && |"Key Capabilities"| == 16;
    assert |"API Reference"| == 13 && |"Scope and Limitations"| == 21 && |OPTIONAL| == 12;
    assert "Installation"[0] == 'I' && OPTIONAL[0] == 'D';
  }

  /** Which heading each filled section used, among the first n: the first heading of a section there is. */
  function Claimed(lower: Lower, levelTwo: seq<Section>, sections: Sections, n: nat): map<nat, string>
    requires n <= |levelTwo|
  {
    if n == 0 then map[]
    else
      var used := Claimed(lower, levelTwo, sections, n - 1);
      var name := CanonicalOf(lower, levelTwo[n - 1]);
      if name.Some? && name.value in sections && name.value !in used.Values then used[n - 1 := name.value] else used
  }

  /** The result so far, the canonical section each consumed heading went to, and the mapped pairs. */
  datatype Progress = Progress(result: Sections, used: map<nat, string>, mapped: seq<(string, string)>)

  function MapOne(lower: Lower, levelTwo: seq<Section>, p: Progress, i: nat): Progress
    requires i < |levelTwo|
  {
    var s := levelTwo[i];
    var name := AliasOf(lower, s);
    if i in p.used || !HasText(s.body) || name == None || name.value in p.result then p
    else Progress(p.result[name.value := s.body], p.used[i := name.value], p.mapped + [(s.heading, name.value)])
  }

  function MapFirst(lower: Lower, levelTwo: seq<Section>, sections: Sections, n: nat): Progress
    requires n <= |levelTwo|
  {
    if n == 0 then Progress(sections, Claimed(lower, levelTwo, sections, |levelTwo|), [])
    else MapOne(lower, levelTwo, MapFirst(lower, levelTwo, sections, n - 1), n - 1)
  }

  function Mapped(lower: Lower, levelTwo: seq<Section>, sections: Sections): Progress {
    MapFirst(lower, levelTwo, sections, |levelTwo|)
  }

  predicate IsKept(lower: Lower, levelTwo: seq<Section>, used: map<nat, string>, i: nat)
    requires i < |levelTwo|
  {
    i !in used && HasText(levelTwo[i].body) && !IsBoilerplate(lower, levelTwo[i])
  }

  function KeptFirst(lower: Lower, levelTwo: seq<Section>, used: map<nat, string>, n: nat): seq<Section>
    requires n <= |levelTwo|
  {
    if n == 0 then []
    else KeptFirst(lower, levelTwo, used, n - 1) + if IsKept(lower, levelTwo, used, n - 1) then [levelTwo[n - 1]] else []
  }

  function Block(s: Section): string { "### " + s.heading + "\n\n" + s.body }

  function Blocks(kept: seq<Section>): (b: seq<string>)
    ensures |b| == |kept| && forall i :: 0 <= i < |kept| ==> b[i] == Block(kept[i])
  {
    seq(|kept|, i requires 0 <= i < |kept| => Block(kept[i]))
  }

  function Extras(kept: seq<Section>): string { Join("\n\n", Blocks(kept)) }

  function WithExtras(result: Sections, kept: seq<Section>): Sections {
    if kept == [] then result
    else result[CAPABILITIES := if CAPABILITIES in result then result[CAPABILITIES] + "\n\n" + Extras(kept) else Extras(kept)]
  }

  function KeptOf(lower: Lower, levelTwo: seq<Section>, sections: Sections): seq<Section> {
    KeptFirst(lower, levelTwo, Mapped(lower, levelTwo, sections).used, |levelTwo|)
  }

  function Fallback(lower: Lower, levelTwo: seq<Section>, sections: Sections): Sections {
    if !Fires(sections) then sections
    else WithExtras(Mapped(lower, levelTwo, sections).result, KeptOf(lower, levelTwo, sections))
  }

  /** _apply_section_fallback, with its report; the report stays empty when it does not run. */
  method ApplySectionFallback(lower: Lower, levelTwo: seq<Section>, sections: Sections)
    returns (result: Sections, mapped: seq<(string, string)>, kept: seq<Section>)
    ensures result == Fallback(lower, levelTwo, sections)
    ensures mapped == if Fires(sections) then Mapped(lower, levelTwo, sections).mapped else []
    ensures kept == if Fires(sections) then KeptOf(lower, levelTwo, sections) else []
  {
    hide REQUIRED, OPTIONAL, CanonicalOf, AliasOf, IsBoilerplate, HasText, Extras, CAPABILITIES;
    result, mapped, kept := sections, [], [];
    if !Fires(sections) { return; }
    var consumed: set<nat>, claimed: set<string> := {}, {};
    ghost var used: map<nat, string> := map[];
    for i := 0 to |levelTwo|
      invariant used == Claimed(lower, levelTwo, sections, i) && consumed == used.Keys && claimed == used.Values
      invariant forall k :: k in used ==> k < i
    {
      var name := CanonicalOf(lower, levelTwo[i]);
      if name.Some? && name.value in result && name.value !in claimed {
        NewValue(used, i, name.value);
        used := used[i := name.value];
        consumed := consumed + {i};
        claimed := claimed + {name.value};
      }
    }
    for i := 0 to |levelTwo|
      invariant Progress(result, used, mapped) == MapFirst(lower, levelTwo, sections, i) && consumed == used.Keys
    {
      var s := levelTwo[i];
      if i in consumed || !HasText(s.body) { continue; }
      var name := AliasOf(lower, s);
      if name == None || name.value in result { continue; }
      result := result[name.value := s.body];
      used := used[i := name.value];
      consumed := consumed + {i};
      mapped := mapped + [(s.heading, name.value)];
    }
    for i := 0 to |levelTwo|
      invariant kept == KeptFirst(lower, levelTwo, used, i)
    {
      if i !in consumed && HasText(levelTwo[i].body) && !IsBoilerplate(lower, levelTwo[i]) {
        kept := kept + [levelTwo[i]];
      }
    }
    if kept != [] {
      var extras := Extras(kept);
      result := result[CAPABILITIES := if CAPABILITIES in result then result[CAPABILITIES] + "\n\n" + extras else extras];
    }
  }

  lemma NewValue(used: map<nat, string>, i: nat, name: string)
    requires i !in used
    ensures used[i := name].Values == used.Values + {name}
    ensures used[i := name].Keys == used.Keys + {i}
  {
    var m := used[i := name];
    assert forall k :: k in used ==> m[k] == used[k];
    assert m[i] == name;
  }

  // ----- a heading is consumed once -----

  /** No two headings go to the same section. */
  ghost predicate UsedOnce(used: map<nat, string>) {
    forall i, j :: i in used && j in used && used[i] == used[j] ==> i == j
  }

  lemma {:induction false} ClaimedOnce(lower: Lower, levelTwo: seq<Section>, sections: Sections, n: nat)
    requires n <= |levelTwo|
    ensures UsedOnce(Claimed(lower, levelTwo, sections, n))
    ensures forall i :: i in Claimed(lower, levelTwo, sections, n) ==>
              i < n && Some(Claimed(lower, levelTwo, sections, n)[i]) == CanonicalOf(lower, levelTwo[i])
              && Claimed(lower, levelTwo, sections, n)[i] in sections
  {
    hide CanonicalOf;
    if n > 0 {
      ClaimedOnce(lower, levelTwo, sections, n - 1);
      var used := Claimed(lower, levelTwo, sections, n - 1);
      assert forall i :: i in used ==> used[i] in used.Values;
    }
  }

  /** What holds after each mapping step: the old sections are there, a consumed heading's section is in the
      result, and each section was filled by one heading at most. */
  ghost predicate MapInv(levelTwo: seq<Section>, sections: Sections, claimed: map<nat, string>, p: Progress) {
    && (forall name :: name in sections ==> name in p.result && p.result[name] == sections[name])
    && UsedOnce(p.used)
    && (forall i :: i in claimed ==> i in p.used && p.used[i] == claimed[i])
    && (forall i :: i in p.used ==> i < |levelTwo| && p.used[i] in p.result)
    && (forall i :: i in p.used && i !in claimed ==>
          p.used[i] !in sections && p.result[p.used[i]] == levelTwo[i].body && HasText(levelTwo[i].body))
  }

  lemma {:induction false} MapKeepsInv(lower: Lower, levelTwo: seq<Section>, sections: Sections, n: nat)
    requires n <= |levelTwo|
    ensures MapInv(levelTwo, sections, Claimed(lower, levelTwo, sections, |levelTwo|), MapFirst(lower, levelTwo, sections, n))
  {
    hide AliasOf, HasText, CanonicalOf, MapInv, MapOne;
    var claimed := Claimed(lower, levelTwo, sections, |levelTwo|);
    if n == 0 {
      ClaimedOnce(lower, levelTwo, sections, |levelTwo|);
      StartHasInv(levelTwo, sections, claimed);
    } else {
      MapKeepsInv(lower, levelTwo, sections, n - 1);
      MapOneKeepsInv(lower, levelTwo, sections, claimed, MapFirst(lower, levelTwo, sections, n - 1), n - 1);
    }
  }

  lemma StartHasInv(levelTwo: seq<Section>, sections: Sections, claimed: map<nat, string>)
    requires UsedOnce(claimed) && forall i :: i in claimed ==> i < |levelTwo| && claimed[i] in sections
    ensures MapInv(levelTwo, sections, claimed, Progress(sections, claimed, []))
  {
  }

  lemma MapOneKeepsInv(
      lower: Lower, levelTwo: seq<Section>, sections: Sections, claimed: map<nat, string>, p: Progress, i: nat)
    requires i < |levelTwo| && MapInv(levelTwo, sections, claimed, p)
    ensures MapInv(levelTwo, sections, claimed, MapOne(lower, levelTwo, p, i))
  {
    hide AliasOf, HasText;
  }

  /** Each heading is consumed at most once and fills one section; what is kept was not consumed. */
  lemma EachHeadingIsConsumedOnce(lower: Lower, levelTwo: seq<Section>, sections: Sections)
    ensures UsedOnce(Mapped(lower, levelTwo, sections).used)
    ensures forall i :: i in Mapped(lower, levelTwo, sections).used ==> i < |levelTwo|
  {
    hide MapFirst, Claimed, UsedOnce;
    MapKeepsInv(lower, levelTwo, sections, |levelTwo|);
  }

  /** The heading stands for this section, and has a text. */
  ghost predicate StandsFor(lower: Lower, s: Section, name: string) {
    var key := SectionKey(lower, s.heading);
    key in ALIASES && ALIASES[key] == name && Shows(s.body)
  }

  lemma StandsForIs(lower: Lower, s: Section, name: string)
    ensures StandsFor(lower, s, name) <==> AliasOf(lower, s) == Some(name) && HasText(s.body)
  {
    hide SectionKey, HasText, ALIASES;
    HasTextIs(s.body);
  }

  /** Once a heading was passed, the section it stands for is filled, unless it was consumed by its own name. */
  lemma {:induction false} AliasIsFilled(
      lower: Lower, levelTwo: seq<Section>, sections: Sections, n: nat, j: nat, name: string)
    requires j < n <= |levelTwo| && StandsFor(lower, levelTwo[j], name)
    requires j !in Claimed(lower, levelTwo, sections, |levelTwo|)
    ensures name in MapFirst(lower, levelTwo, sections, n).result
  {
    hide AliasOf, HasText, Claimed, StandsFor;
    StandsForIs(lower, levelTwo[j], name);
    if j < n - 1 {
      AliasIsFilled(lower, levelTwo, sections, n - 1, j, name);
    } else {
      NotUsedBefore(lower, levelTwo, sections, n - 1, j);
    }
  }

  lemma {:induction false} NotUsedBefore(lower: Lower, levelTwo: seq<Section>, sections: Sections, n: nat, j: nat)
    requires n <= j < |levelTwo| && j !in Claimed(lower, levelTwo, sections, |levelTwo|)
    ensures j !in MapFirst(lower, levelTwo, sections, n).used
  {
    hide AliasOf, HasText, Claimed;
    if n > 0 { NotUsedBefore(lower, levelTwo, sections, n - 1, j); }
  }

  /** A missing section is filled by the first heading, in README order, that has a body, stands for it and
      was not consumed by its own name. */
  lemma {:induction false} FirstAliasWins(lower: Lower, levelTwo: seq<Section>, sections: Sections, n: nat, i: nat)
    requires n <= |levelTwo| && i in MapFirst(lower, levelTwo, sections, n).used
    requires i !in Claimed(lower, levelTwo, sections, |levelTwo|)
    ensures i < n && StandsFor(lower, levelTwo[i], MapFirst(lower, levelTwo, sections, n).used[i])
    ensures forall j :: 0 <= j < i && StandsFor(lower, levelTwo[j], MapFirst(lower, levelTwo, sections, n).used[i]) ==>
              j in Claimed(lower, levelTwo, sections, |levelTwo|)
  {
    hide AliasOf, HasText, Claimed, StandsFor;
    var claimed := Claimed(lower, levelTwo, sections, |levelTwo|);
    assert n > 0;
    if i in MapFirst(lower, levelTwo, sections, n - 1).used {
      FirstAliasWins(lower, levelTwo, sections, n - 1, i);
    } else {
      var name := MapFirst(lower, levelTwo, sections, n).used[i];
      StandsForIs(lower, levelTwo[i], name);
      forall j | 0 <= j < i && StandsFor(lower, levelTwo[j], name) ensures j in claimed {
        if j !in claimed { AliasIsFilled(lower, levelTwo, sections, n - 1, j, name); }
      }
    }
  }

  /** The report of the mapping: one pair for each heading consumed by an alias, in README order. */
  lemma {:induction false} MappedPairsAre(lower: Lower, levelTwo: seq<Section>, sections: Sections, n: nat) returns (at: seq<nat>)
    requires n <= |levelTwo|
    ensures var p, claimed := MapFirst(lower, levelTwo, sections, n), Claimed(lower, levelTwo, sections, |levelTwo|);
            && |at| == |p.mapped|
            && (forall k :: 0 <= k < |at| ==>
                  at[k] < n && at[k] in p.used && p.mapped[k] == (levelTwo[at[k]].heading, p.used[at[k]]))
            && (forall i :: i in at <==> i in p.used && i !in claimed)
    ensures forall k, m :: 0 <= k < m < |at| ==> at[k] < at[m]
  {
    hide AliasOf, HasText, Claimed;
    if n == 0 {
      at := [];
    } else {
      at := MappedPairsAre(lower, levelTwo, sections, n - 1);
      var before := MapFirst(lower, levelTwo, sections, n - 1);
      if MapOne(lower, levelTwo, before, n - 1) != before { at := at + [n - 1]; }
      ClaimedStays(lower, levelTwo, sections, n - 1);
    }
  }

  lemma {:induction false} ClaimedStays(lower: Lower, levelTwo: seq<Section>, sections: Sections, n: nat)
    requires n <= |levelTwo|
    ensures forall i :: i in Claimed(lower, levelTwo, sections, |levelTwo|) ==> i in MapFirst(lower, levelTwo, sections, n).used
  {
    hide AliasOf, HasText, Claimed;
    if n > 0 { ClaimedStays(lower, levelTwo, sections, n - 1); }
  }

  /** The sections kept are, in README order, those that were not consumed, show something and are not
      boilerplate. */
  lemma {:induction false} KeptIsExact(lower: Lower, levelTwo: seq<Section>, used: map<nat, string>, n: nat) returns (at: seq<nat>)
    requires n <= |levelTwo|
    ensures var kept := KeptFirst(lower, levelTwo, used, n);
            |at| == |kept| && forall k :: 0 <= k < |at| ==> at[k] < n && kept[k] == levelTwo[at[k]]
    ensures forall k, m :: 0 <= k < m < |at| ==> at[k] < at[m]
    ensures forall i :: i in at <==>
              0 <= i < n && i !in used && Shows(levelTwo[i].body) && SectionKey(lower, levelTwo[i].heading) !in BOILERPLATE
  {
    hide HasText, SectionKey, BOILERPLATE, Shows;
    if n == 0 {
      at := [];
    } else {
      at := KeptIsExact(lower, levelTwo, used, n - 1);
      HasTextIs(levelTwo[n - 1].body);
      if IsKept(lower, levelTwo, used, n - 1) { at := at + [n - 1]; }
    }
  }

  // ----- what is dropped -----

  predicate StandsAt(text: string, piece: string, k: nat) { k + |piece| <= |text| && text[k..k + |piece|] == piece }

  ghost predicate Contains(text: string, piece: string) { exists k: nat :: StandsAt(text, piece, k) }

  lemma ContainsInside(before: string, piece: string, rest: string)
    ensures Contains(before + piece + rest, piece)
  {
    assert StandsAt(before + piece + rest, piece, |before|);
  }

  lemma ContainsLonger(before: string, text: string, rest: string, piece: string)
    requires Contains(text, piece)
    ensures Contains(before + text + rest, piece)
  {
    var k: nat :| StandsAt(text, piece, k);
    var s := before + text + rest;
    assert s[|before| + k..|before| + k + |piece|] == text[k..k + |piece|];
    assert StandsAt(s, piece, |before| + k);
  }

  lemma {:induction false} JoinContains(sep: string, parts: seq<string>, i: nat)
    requires i < |parts|
    ensures Contains(Join(sep, parts), parts[i])
  {
    hide Contains;
    if |parts| == 1 {
      ContainsInside("", parts[0], "");
      assert "" + parts[0] + "" == parts[0];
    } else {
      var rest := Join(sep, parts[1..]);
      if i == 0 {
        ContainsInside("", parts[0], sep + rest);
        assert "" + parts[0] + (sep + rest) == Join(sep, parts);
      } else {
        JoinContains(sep, parts[1..], i - 1);
        ContainsLonger(parts[0] + sep, rest, "", parts[i]);
        assert parts[0] + sep + rest + "" == Join(sep, parts);
      }
    }
  }

  lemma {:induction false} KeptIsThere(lower: Lower, levelTwo: seq<Section>, used: map<nat, string>, n: nat, i: nat)
    requires i < n <= |levelTwo| && IsKept(lower, levelTwo, used, i)
    ensures levelTwo[i] in KeptFirst(lower, levelTwo, used, n)
  {
    hide IsKept;
    if i < n - 1 { KeptIsThere(lower, levelTwo, used, n - 1, i); }
  }

  lemma ExtrasContain(kept: seq<Section>, s: Section)
    requires s in kept
    ensures Contains(Extras(kept), Block(s))
  {
    hide Contains, Block, Join;
    var i :| 0 <= i < |kept| && kept[i] == s;
    JoinContains("\n\n", Blocks(kept), i);
  }

  /** A kept section stands under Key Capabilities with its own heading. */
  lemma KeptIsShown(lower: Lower, levelTwo: seq<Section>, sections: Sections, i: nat)
    requires Fires(sections) && i < |levelTwo|
    requires IsKept(lower, levelTwo, Mapped(lower, levelTwo, sections).used, i)
    ensures var r := Fallback(lower, levelTwo, sections);
            CAPABILITIES in r && Contains(r[CAPABILITIES], Block(levelTwo[i]))
  {
    hide IsKept, Contains, Block, Fires, Mapped, Extras;
    var p := Mapped(lower, levelTwo, sections);
    var kept := KeptOf(lower, levelTwo, sections);
    KeptIsThere(lower, levelTwo, p.used, |levelTwo|, i);
    ExtrasContain(kept, levelTwo[i]);
    if CAPABILITIES in p.result {
      ContainsLonger(p.result[CAPABILITIES] + "\n\n", Extras(kept), "", Block(levelTwo[i]));
      assert p.result[CAPABILITIES] + "\n\n" + Extras(kept) + "" == p.result[CAPABILITIES] + "\n\n" + Extras(kept);
    }
  }

  /** The sections the caller read: a filled section holds the body of the first heading with its key. */
  ghost predicate FromHeadings(lower: Lower, levelTwo: seq<Section>, sections: Sections) {
    forall name, i: nat :: name in sections && IsFirst(lower, levelTwo, SectionKey(lower, name), i) ==>
      sections[name] == levelTwo[i].body
  }

  predicate IsFirst(lower: Lower, levelTwo: seq<Section>, key: string, i: nat) {
    && i < |levelTwo| && SectionKey(lower, levelTwo[i].heading) == key
    && forall j :: 0 <= j < i ==> SectionKey(lower, levelTwo[j].heading) != key
  }

  /** A claimed heading is the first one with its key. */
  lemma {:induction false} ClaimedIsFirst(lower: Lower, levelTwo: seq<Section>, sections: Sections, n: nat, i: nat)
    requires n <= |levelTwo| && i in Claimed(lower, levelTwo, sections, n)
    ensures i < n && IsFirst(lower, levelTwo, SectionKey(lower, levelTwo[i].heading), i)
  {
    hide SectionKey, REQUIRED;
    assert n > 0;
    var used := Claimed(lower, levelTwo, sections, n - 1);
    if i in used {
      ClaimedIsFirst(lower, levelTwo, sections, n - 1, i);
    } else {
      forall j | 0 <= j < i ensures SectionKey(lower, levelTwo[j].heading) != SectionKey(lower, levelTwo[i].heading) {
        if CanonicalOf(lower, levelTwo[j]) == CanonicalOf(lower, levelTwo[i]) {
          EarlierWouldClaim(lower, levelTwo, sections, n - 1, j);
        }
      }
    }
  }

  lemma {:induction false} EarlierWouldClaim(lower: Lower, levelTwo: seq<Section>, sections: Sections, n: nat, j: nat)
    requires j < n <= |levelTwo|
    ensures var name := CanonicalOf(lower, levelTwo[j]);
            name.Some? && name.value in sections ==> name.value in Claimed(lower, levelTwo, sections, n).Values
  {
    hide CanonicalOf;
    var used, name := Claimed(lower, levelTwo, sections, n - 1), CanonicalOf(lower, levelTwo[n - 1]);
    if j < n - 1 { EarlierWouldClaim(lower, levelTwo, sections, n - 1, j); }
    ClaimedOnce(lower, levelTwo, sections, n - 1);
    if name.Some? && n - 1 !in used { NewValue(used, n - 1, name.value); }
  }

  /** A consumed heading's body opens the section it went to. */
  lemma ConsumedIsShown(lower: Lower, levelTwo: seq<Section>, sections: Sections, i: nat)
    requires FromHeadings(lower, levelTwo, sections) && Fires(sections)
    requires i in Mapped(lower, levelTwo, sections).used
    ensures i < |levelTwo|
    ensures var r, name := Fallback(lower, levelTwo, sections), Mapped(lower, levelTwo, sections).used[i];
            name in r && StandsAt(r[name], levelTwo[i].body, 0)
  {
    hide Fires, MapFirst, KeptOf, Extras, SectionKey, REQUIRED, HasText, CAPABILITIES, Claimed;
    var p, claimed := Mapped(lower, levelTwo, sections), Claimed(lower, levelTwo, sections, |levelTwo|);
    MapKeepsInv(lower, levelTwo, sections, |levelTwo|);
    if i in claimed {
      ClaimedIsFirst(lower, levelTwo, sections, |levelTwo|, i);
      ClaimedOnce(lower, levelTwo, sections, |levelTwo|);
    }
    assert p.result[p.used[i]] == levelTwo[i].body;
  }

  /** When the fallback runs, a level-two section with a body is shown (in the section its heading stands
      for, or kept under Key Capabilities) exactly when its heading is not boilerplate or was consumed. */
  lemma NothingElseIsDropped(lower: Lower, levelTwo: seq<Section>, sections: Sections, i: nat)
    requires FromHeadings(lower, levelTwo, sections) && Fires(sections)
    requires i < |levelTwo| && Shows(levelTwo[i].body)
    ensures var r, p, s := Fallback(lower, levelTwo, sections), Mapped(lower, levelTwo, sections), levelTwo[i];
            if i in p.used then p.used[i] in r && StandsAt(r[p.used[i]], s.body, 0)
            else if SectionKey(lower, s.heading) !in BOILERPLATE then
              && "Key Capabilities" in r && Contains(r["Key Capabilities"], "### " + s.heading + "\n\n" + s.body)
              && s in KeptOf(lower, levelTwo, sections)
            else !IsKept(lower, levelTwo, p.used, i)
  {
    hide FromHeadings, Fires, HasText, Shows, SectionKey, BOILERPLATE, Fallback, MapFirst, Contains, KeptFirst;
    HasTextIs(levelTwo[i].body);
    var p := Mapped(lower, levelTwo, sections);
    if i in p.used {
      ConsumedIsShown(lower, levelTwo, sections, i);
    } else if !IsBoilerplate(lower, levelTwo[i]) {
      KeptIsShown(lower, levelTwo, sections, i);
      KeptIsThere(lower, levelTwo, p.used, |levelTwo|, i);
    }
  }

  /** Every section there was before is still there: unchanged, except that Key Capabilities may go on. */
  lemma OtherSectionsAreUnchanged(lower: Lower, levelTwo: seq<Section>, sections: Sections, name: string)
    requires name in sections
    ensures name in Fallback(lower, levelTwo, sections)
    ensures name != CAPABILITIES ==> Fallback(lower, levelTwo, sections)[name] == sections[name]
    ensures StandsAt(Fallback(lower, levelTwo, sections)[name], sections[name], 0)
  {
    hide Fires, MapFirst, KeptFirst, Extras, Claimed, UsedOnce;
    MapKeepsInv(lower, levelTwo, sections, |levelTwo|);
  }

  // ----- the sections of a README -----

  /** The line after the body that starts at this line: the next heading of level one or two, or the end. */
  function StopOf(headings: seq<Heading>, start: nat, end: nat): nat {
    if headings == [] then end
    else if headings[0].line > start && headings[0].level <= 2 then headings[0].line
    else StopOf(headings[1..], start, end)
  }

  function BodyAt(lines: seq<string>, headings: seq<Heading>, start: nat): string {
    var stop := StopOf(headings, start, |lines|);
    if start + 1 <= stop <= |lines| then Neutralise(Join("\n", lines[start + 1..stop])) else Neutralise("")
  }

  /** Every level-two heading with its body, in order. */
  function LevelTwo(lines: seq<string>, all: seq<Heading>, headings: seq<Heading>): seq<Section> {
    if headings == [] then []
    else
      (if headings[0].level == 2 then [Section(headings[0].text, BodyAt(lines, all, headings[0].line))] else [])
      + LevelTwo(lines, all, headings[1..])
  }

  /** The line of the first level-two heading with this key. */
  function StartOf(lower: Lower, headings: seq<Heading>, key: string): Option<nat> {
    if headings == [] then None
    else if headings[0].level == 2 && SectionKey(lower, headings[0].text) == key then Some(headings[0].line)
    else StartOf(lower, headings[1..], key)
  }

  /** The canonical-name pass over the names. */
  function NamedSections(lower: Lower, lines: seq<string>, headings: seq<Heading>, names: seq<string>): Sections {
    if names == [] then map[]
    else
      var before, name := NamedSections(lower, lines, headings, names[..|names| - 1]), names[|names| - 1];
      var start := StartOf(lower, headings, SectionKey(lower, name));
      if start.Some? && HasText(BodyAt(lines, headings, start.value))
      then before[name := BodyAt(lines, headings, start.value)] else before
  }

  /** The line each key starts at: the first heading of a repeated name wins. */
  method LevelTwoLines(lower: Lower, headings: seq<Heading>) returns (levelTwo: map<string, nat>)
    ensures forall key :: key in levelTwo <==> StartOf(lower, headings, key).Some?
    ensures forall key :: key in levelTwo ==> StartOf(lower, headings, key) == Some(levelTwo[key])
  {
    hide SectionKey;
    levelTwo := map[];
    var n := |headings|;
    while n > 0
      invariant 0 <= n <= |headings|
      invariant forall key :: key in levelTwo <==> StartOf(lower, headings[n..], key).Some?
      invariant forall key :: key in levelTwo ==> StartOf(lower, headings[n..], key) == Some(levelTwo[key])
    {
      n := n - 1;
      assert headings[n..][0] == headings[n] && headings[n..][1..] == headings[n + 1..];
      if headings[n].level == 2 {
        levelTwo := levelTwo[SectionKey(lower, headings[n].text) := headings[n].line];
      }
    }
    assert headings[0..] == headings;
  }

  /** The section part of parse_readme, on the lines of a README. */
  method ReadSections(lower: Lower, x: Texts, lines: seq<string>) returns (sections: Sections)
    ensures var headings := Headings(x, lines, 0);
            sections == Fallback(lower, LevelTwo(lines, headings, headings), NamedSections(lower, lines, headings, REQUIRED))
  {
    hide Headings, Fallback, LevelTwo, BodyAt, HasText, SectionKey, REQUIRED, Fences, Fires, Mapped, KeptOf;
    var headings, fences := ScanMarkdown(x, lines);
    var starts := LevelTwoLines(lower, headings);
    sections := map[];
    for i := 0 to |REQUIRED|
      invariant sections == NamedSections(lower, lines, headings, REQUIRED[..i])
    {
      var name := REQUIRED[i];
      assert REQUIRED[..i + 1][..i] == REQUIRED[..i];
      var key := SectionKey(lower, name);
      if key !in starts { continue; }
      var body := BodyAt(lines, headings, starts[key]);
      if HasText(body) { sections := sections[name := body]; }
    }
    assert REQUIRED[..|REQUIRED|] == REQUIRED;
    var levelTwo := [];
    for i := 0 to |headings|
      invariant LevelTwo(lines, headings, headings) == levelTwo + LevelTwo(lines, headings, headings[i..])
    {
      LevelTwoStep(lines, headings, i);
      if headings[i].level == 2 {
        Assoc(levelTwo, [Section(headings[i].text, BodyAt(lines, headings, headings[i].line))],
              LevelTwo(lines, headings, headings[i + 1..]));
        levelTwo := levelTwo + [Section(headings[i].text, BodyAt(lines, headings, headings[i].line))];
      }
    }
    LevelTwoOfNone(lines, headings);
    assert headings[|headings|..] == [] && levelTwo + [] == levelTwo;
    var result, mapped, kept := ApplySectionFallback(lower, levelTwo, sections);
    sections := result;
  }

  lemma LevelTwoOfNone(lines: seq<string>, all: seq<Heading>)
    ensures LevelTwo(lines, all, []) == []
  {
  }

  lemma LevelTwoStep(lines: seq<string>, headings: seq<Heading>, i: nat)
    requires i < |headings|
    ensures LevelTwo(lines, headings, headings[i..]) ==
            (if headings[i].level == 2 then [Section(headings[i].text, BodyAt(lines, headings, headings[i].line))] else [])
            + LevelTwo(lines, headings, headings[i + 1..])
  {
    hide BodyAt;
    assert headings[i..][1..] == headings[i + 1..];
  }

  lemma {:induction false} StartIsFirst(
      lower: Lower, lines: seq<string>, all: seq<Heading>, headings: seq<Heading>, key: string, i: nat)
    requires IsFirst(lower, LevelTwo(lines, all, headings), key, i)
    ensures StartOf(lower, headings, key).Some?
    ensures LevelTwo(lines, all, headings)[i].body == BodyAt(lines, all, StartOf(lower, headings, key).value)
  {
    hide SectionKey, BodyAt, IsFirst;
    FirstIsInside(lower, LevelTwo(lines, all, headings), key, i);
    var h, rest := headings[0], LevelTwo(lines, all, headings[1..]);
    if h.level == 2 {
      var here := Section(h.text, BodyAt(lines, all, h.line));
      assert LevelTwo(lines, all, headings) == [here] + rest;
      FirstOfCons(lower, here, rest, key, i);
      if i > 0 { StartIsFirst(lower, lines, all, headings[1..], key, i - 1); }
    } else {
      assert LevelTwo(lines, all, headings) == [] + rest == rest;
      StartIsFirst(lower, lines, all, headings[1..], key, i);
    }
  }

  lemma FirstOfCons(lower: Lower, s: Section, rest: seq<Section>, key: string, i: nat)
    requires IsFirst(lower, [s] + rest, key, i)
    ensures i == 0 <==> SectionKey(lower, s.heading) == key
    ensures i > 0 ==> IsFirst(lower, rest, key, i - 1) && ([s] + rest)[i] == rest[i - 1]
  {
    hide SectionKey;
    assert ([s] + rest)[0] == s;
    assert forall j :: 0 <= j < |rest| ==> ([s] + rest)[j + 1] == rest[j];
  }

  lemma {:induction false} NamedSectionIs(
      lower: Lower, lines: seq<string>, headings: seq<Heading>, names: seq<string>, name: string)
    requires name in NamedSections(lower, lines, headings, names)
    ensures var start := StartOf(lower, headings, SectionKey(lower, name));
            start.Some? && NamedSections(lower, lines, headings, names)[name] == BodyAt(lines, headings, start.value)
  {
    hide SectionKey, BodyAt, HasText, StartOf;
    var before := names[..|names| - 1];
    if name in NamedSections(lower, lines, headings, before) { NamedSectionIs(lower, lines, headings, before, name); }
  }

  lemma NamedSectionsAreFromHeadings(lower: Lower, lines: seq<string>, headings: seq<Heading>)
    ensures FromHeadings(lower, LevelTwo(lines, headings, headings), NamedSections(lower, lines, headings, REQUIRED))
  {
    hide SectionKey, BodyAt, NamedSections, LevelTwo, StartOf, IsFirst, REQUIRED;
    var levelTwo, sections := LevelTwo(lines, headings, headings), NamedSections(lower, lines, headings, REQUIRED);
    forall name, i: nat | name in sections && IsFirst(lower, levelTwo, SectionKey(lower, name), i)
      ensures i < |levelTwo| && sections[name] == levelTwo[i].body
    {
      FirstIsInside(lower, levelTwo, SectionKey(lower, name), i);
      StartIsFirst(lower, lines, headings, headings, SectionKey(lower, name), i);
      NamedSectionIs(lower, lines, headings, REQUIRED, name);
    }
  }

  lemma FirstIsInside(lower: Lower, levelTwo: seq<Section>, key: string, i: nat)
    requires IsFirst(lower, levelTwo, key, i)
    ensures i < |levelTwo|
  {
  }

  // ----- which lines a section holds -----

  ghost predicate InOrder(headings: seq<Heading>, end: nat) {
    && (forall k :: 0 <= k < |headings| ==> headings[k].line < end)
    && (forall k, m :: 0 <= k < m < |headings| ==> headings[k].line < headings[m].line)
  }

  /** The body that starts under this line ends at line t: no heading of level one or two lies between, and t is
      such a heading or the end. */
  ghost predicate EndsAt(headings: seq<Heading>, start: nat, end: nat, t: nat) {
    && start < t <= end
    && (forall h :: h in headings && start < h.line < t ==> h.level > 2)
    && (t == end || exists h :: h in headings && h.line == t && h.level <= 2)
  }

  lemma {:induction false} StopIs(headings: seq<Heading>, start: nat, end: nat)
    requires InOrder(headings, end) && start < end
    ensures EndsAt(headings, start, end, StopOf(headings, start, end))
  {
    if headings != [] {
      var h, rest := headings[0], headings[1..];
      assert headings == [h] + rest;
      StopIs(rest, start, end);
      if h.line > start && h.level <= 2 {
        forall g | g in headings ensures g.line >= h.line { var k :| 0 <= k < |headings| && headings[k] == g; }
      } else if StopOf(rest, start, end) != end {
        assert forall g :: g in rest ==> g in headings;
      }
    }
  }

  /** The heading is of level two, and this is the cleaned text of the lines of its section. */
  ghost predicate HasBody(lines: seq<string>, headings: seq<Heading>, h: Heading, body: string) {
    h in headings && h.level == 2 &&
    exists t: nat :: EndsAt(headings, h.line, |lines|, t) && body == Neutralise(Join("\n", lines[h.line + 1..t]))
  }

  lemma BodyIs(lines: seq<string>, headings: seq<Heading>, h: Heading, body: string)
    requires InOrder(headings, |lines|) && h in headings && h.level == 2
    ensures HasBody(lines, headings, h, body) <==> body == BodyAt(lines, headings, h.line)
  {
    hide Neutralise;
    var stop := StopOf(headings, h.line, |lines|);
    var k :| 0 <= k < |headings| && headings[k] == h;
    StopIs(headings, h.line, |lines|);
    forall t: nat | EndsAt(headings, h.line, |lines|, t) ensures t == stop { EndIsOnce(headings, h.line, |lines|, t, stop); }
  }

  lemma EndIsOnce(headings: seq<Heading>, start: nat, end: nat, t: nat, u: nat)
    requires EndsAt(headings, start, end, t) && EndsAt(headings, start, end, u)
    ensures t == u
  {
  }

  /** The level-two sections are the level-two headings in order, each with its own lines. */
  lemma {:induction false} SectionsAreExact(lines: seq<string>, all: seq<Heading>, n: nat) returns (hs: seq<Heading>)
    requires InOrder(all, |lines|) && n <= |all|
    ensures var levelTwo := LevelTwo(lines, all, all[n..]);
            && |hs| == |levelTwo|
            && forall i :: 0 <= i < |hs| ==> levelTwo[i].heading == hs[i].text && HasBody(lines, all, hs[i], levelTwo[i].body)
    ensures forall i, j :: 0 <= i < j < |hs| ==> hs[i].line < hs[j].line
    ensures forall h :: h in hs <==> h in all[n..] && h.level == 2
    decreases |all| - n
  {
    hide BodyAt, HasBody;
    if n == |all| {
      hs := [];
    } else {
      var h := all[n];
      LevelTwoStep(lines, all, n);
      var rest := SectionsAreExact(lines, all, n + 1);
      assert all[n..] == [h] + all[n + 1..];
      hs := (if h.level == 2 then [h] else []) + rest;
      if h.level == 2 { BodyIs(lines, all, h, BodyAt(lines, all, h.line)); }
      forall g | g in rest ensures h.line < g.line { var k :| n + 1 <= k < |all| && all[k] == g; }
    }
  }

  lemma HeadingsAreInOrder(x: Texts, lines: seq<string>)
    ensures InOrder(Headings(x, lines, 0), |lines|)
  {
    hide Headings, Fences;
    HeadingsArePlaced(x, lines, 0);
  }

  /** The first level-two heading with this key. */
  ghost predicate IsFirstHeading(lower: Lower, headings: seq<Heading>, key: string, h: Heading) {
    && h in headings && h.level == 2 && SectionKey(lower, h.text) == key
    && forall g :: g in headings && g.level == 2 && SectionKey(lower, g.text) == key ==> h.line <= g.line
  }

  lemma {:induction false} StartIs(lower: Lower, headings: seq<Heading>, end: nat, key: string)
    requires InOrder(headings, end)
    ensures match StartOf(lower, headings, key)
            case Some(line) => exists h :: IsFirstHeading(lower, headings, key, h) && h.line == line
            case None => forall h :: h in headings && h.level == 2 ==> SectionKey(lower, h.text) != key
  {
    hide SectionKey;
    if headings != [] {
      var h, rest := headings[0], headings[1..];
      assert headings == [h] + rest;
      forall g | g in headings ensures h.line <= g.line { var k :| 0 <= k < |headings| && headings[k] == g; }
      if h.level == 2 && SectionKey(lower, h.text) == key {
        assert IsFirstHeading(lower, headings, key, h);
      } else {
        StartIs(lower, rest, end, key);
        if StartOf(lower, rest, key).Some? {
          var g :| IsFirstHeading(lower, rest, key, g) && g.line == StartOf(lower, rest, key).value;
          assert IsFirstHeading(lower, headings, key, g);
        }
      }
    }
  }

  /** What the pass over one canonical name reads: the text of the first heading with its key, if there is any. */
  ghost predicate NamedBody(lower: Lower, lines: seq<string>, headings: seq<Heading>, name: string, body: string) {
    exists h :: IsFirstHeading(lower, headings, SectionKey(lower, name), h) && HasBody(lines, headings, h, body) && Shows(body)
  }

  lemma NameIsRead(lower: Lower, lines: seq<string>, headings: seq<Heading>, name: string, body: string)
    requires InOrder(headings, |lines|)
    ensures var start := StartOf(lower, headings, SectionKey(lower, name));
            NamedBody(lower, lines, headings, name, body) <==>
              start.Some? && body == BodyAt(lines, headings, start.value) && HasText(body)
  {
    hide SectionKey, BodyAt, HasText, HasBody, Shows;
    HasTextIs(body);
    var key := SectionKey(lower, name);
    StartIs(lower, headings, |lines|, key);
    forall h | h in headings && h.level == 2
      ensures HasBody(lines, headings, h, body) <==> body == BodyAt(lines, headings, h.line)
    {
      BodyIs(lines, headings, h, body);
    }
    var start := StartOf(lower, headings, key);
    if start.Some? {
      var h :| IsFirstHeading(lower, headings, key, h) && h.line == start.value;
      forall g | IsFirstHeading(lower, headings, key, g) ensures g.line == h.line {}
    }
  }

  /** The canonical-name pass reads exactly that. */
  lemma {:induction false} NamedSectionsAreExact(
      lower: Lower, lines: seq<string>, headings: seq<Heading>, names: seq<string>, name: string, body: string)
    requires InOrder(headings, |lines|)
    ensures var sections := NamedSections(lower, lines, headings, names);
            name in sections && sections[name] == body <==> name in names && NamedBody(lower, lines, headings, name, body)
  {
    hide SectionKey, BodyAt, HasText, NamedBody, StartOf;
    if names != [] {
      var before, last := names[..|names| - 1], names[|names| - 1];
      assert names == before + [last];
      NamedSectionsAreExact(lower, lines, headings, before, name, body);
      NameIsRead(lower, lines, headings, name, body);
    }
  }

  /** When the fallback runs on a README, the text of every level-two section, down to the next heading of level
      one or two, is in the result, whole, unless it is empty or its heading is boilerplate. */
  lemma ReadmeLosesNoSection(lower: Lower, x: Texts, lines: seq<string>, h: Heading, body: string)
    requires var headings := Headings(x, lines, 0);
             && HasBody(lines, headings, h, body) && Shows(body) && SectionKey(lower, h.text) !in BOILERPLATE
             && Fires(NamedSections(lower, lines, headings, REQUIRED))
    ensures var headings := Headings(x, lines, 0);
            var r := Fallback(lower, LevelTwo(lines, headings, headings), NamedSections(lower, lines, headings, REQUIRED));
            exists name :: name in r && Contains(r[name], body)
  {
    hide LevelTwo, NamedSections, Fires, Shows, SectionKey, BOILERPLATE, Fallback, Contains, HasBody, Headings, REQUIRED, InOrder, BodyAt;
    var headings := Headings(x, lines, 0);
    HeadingsAreInOrder(x, lines);
    var hs := SectionsAreExact(lines, headings, 0);
    assert headings[0..] == headings && h.level == 2 && h in headings by { HasLevelTwo(lines, headings, h, body); }
    var i :| 0 <= i < |hs| && hs[i] == h;
    var s := LevelTwo(lines, headings, headings)[i];
    BodyIs(lines, headings, h, body);
    BodyIs(lines, headings, h, s.body);
    assert s == Section(h.text, body);
    SectionIsKept(lower, lines, headings, i);
  }

  lemma HasLevelTwo(lines: seq<string>, headings: seq<Heading>, h: Heading, body: string)
    requires HasBody(lines, headings, h, body)
    ensures h in headings && h.level == 2
  {
  }

  lemma SectionIsKept(lower: Lower, lines: seq<string>, headings: seq<Heading>, i: nat)
    requires var sections := NamedSections(lower, lines, headings, REQUIRED); Fires(sections)
    requires var levelTwo := LevelTwo(lines, headings, headings);
             i < |levelTwo| && Shows(levelTwo[i].body) && SectionKey(lower, levelTwo[i].heading) !in BOILERPLATE
    ensures var levelTwo := LevelTwo(lines, headings, headings);
            var r := Fallback(lower, levelTwo, NamedSections(lower, lines, headings, REQUIRED));
            exists name :: name in r && Contains(r[name], levelTwo[i].body)
  {
    hide LevelTwo, NamedSections, Fires, Shows, SectionKey, BOILERPLATE, Fallback, MapFirst, Contains, FromHeadings, REQUIRED, KeptFirst;
    var levelTwo, sections := LevelTwo(lines, headings, headings), NamedSections(lower, lines, headings, REQUIRED);
    NamedSectionsAreFromHeadings(lower, lines, headings);
    NothingElseIsDropped(lower, levelTwo, sections, i);
    var r, p := Fallback(lower, levelTwo, sections), Mapped(lower, levelTwo, sections);
    if i in p.used {
      StandsMeansContains(r[p.used[i]], levelTwo[i].body);
    } else {
      var before := "### " + levelTwo[i].heading + "\n\n";
      assert before + levelTwo[i].body == before + levelTwo[i].body + "";
      BlockContains(r[CAPABILITIES], before, levelTwo[i].body);
    }
  }

  lemma StandsMeansContains(text: string, piece: string)
    requires StandsAt(text, piece, 0)
    ensures Contains(text, piece)
  {
  }

  lemma BlockContains(text: string, before: string, body: string)
    requires Contains(text, before + body + "")
    ensures Contains(text, body)
  {
    var k: nat :| StandsAt(text, before + body + "", k);
    var whole := before + body + "";
    assert text[k..k + |whole|][|before|..|before| + |body|] == body;
    assert StandsAt(text, body, k + |before|);
  }
}
