/**
Wall-clock budgets (crates/qualification-driver/src/duration.rs): parsed from a
compact form such as `4m30s` or from ISO 8601, rendered as ISO 8601.
*/
module Budget {
  import opened Wrappers
  import opened Ascii
  import opened Decimal

  // ----- the grammar -----

  /** A run of digits and its unit. */
  datatype Group = Group(digits: string, unit: char)

  predicate IsUnit(c: char) {
    c == 'h' || c == 'm' || c == 's'
  }

  function Seconds(unit: char): nat
    requires IsUnit(unit)
  {
    if unit == 'h' then 3600 else if unit == 'm' then 60 else 1
  }

  predicate ValidGroup(g: Group) {
    g.digits != [] && AllDigits(g.digits) && IsUnit(g.unit)
  }

  predicate Valid(gs: seq<Group>) {
    forall i | 0 <= i < |gs| :: ValidGroup(gs[i])
  }

  function Render(gs: seq<Group>): string {
    if gs == [] then "" else gs[0].digits + [gs[0].unit] + Render(gs[1..])
  }

  /** The exact sum, in seconds. */
  function Total(gs: seq<Group>): nat
    requires Valid(gs)
  {
    if gs == [] then 0 else Total(gs[..|gs| - 1]) + Value(gs[|gs| - 1].digits) * Seconds(gs[|gs| - 1].unit)
  }

  /** `White_Space`, which `str::trim` removes. */
  predicate IsWhitespace(c: char) {
    var x := c as int;
    || 9 <= x <= 13 || x == 0x20 || x == 0x85 || x == 0xA0 || x == 0x1680 || 0x2000 <= x <= 0x200A
    || x == 0x2028 || x == 0x2029 || x == 0x202F || x == 0x205F || x == 0x3000
  }

  function TrimStart(s: string): string {
    if s != [] && IsWhitespace(s[0]) then TrimStart(s[1..]) else s
  }

  function TrimEnd(s: string): string {
    if s != [] && IsWhitespace(s[|s| - 1]) then TrimEnd(s[..|s| - 1]) else s
  }

  function Trim(s: string): string {
    TrimEnd(TrimStart(s))
  }

  predicate HasPrefix(text: string) {
    "PT" <= text || "pt" <= text
  }

  /** The text whose groups are read: trimmed, and folded after an ISO prefix. */
  function Body(raw: string): string {
    var text := Trim(raw);
    if HasPrefix(text) then LowerAll(text[2..]) else text
  }

  /** What a budget string means: one or more groups, adding up to `seconds`. */
  ghost predicate Means(raw: string, gs: seq<Group>, seconds: nat) {
    gs != [] && Valid(gs) && Body(raw) == Render(gs) && Total(gs) == seconds
  }

  /** Both prefixes mean the same, and what follows is read in any case. */
  lemma PrefixesAgree(rest: string)
    requires rest != "" && !IsWhitespace(rest[|rest| - 1])
    ensures Body("PT" + rest) == Body("pt" + rest) == LowerAll(rest)
  {
    assert ("PT" + rest)[2..] == rest && ("pt" + rest)[2..] == rest;
    assert Trim("PT" + rest) == "PT" + rest && Trim("pt" + rest) == "pt" + rest by {
      assert ("PT" + rest)[0] == 'P' && ("pt" + rest)[0] == 'p';
      assert ("PT" + rest)[|rest| + 1] == ("pt" + rest)[|rest| + 1] == rest[|rest| - 1];
    }
  }

  // ----- the groups of a text are unique -----

  lemma SplitUnique(d: string, u: char, t: string, e: string, v: char, w: string)
    requires AllDigits(d) && AllDigits(e) && !IsDigit(u) && !IsDigit(v)
    requires d + [u] + t == e + [v] + w
    ensures d == e && u == v && t == w
  {
    var s := d + [u] + t;
    assert forall i | 0 <= i < |d| :: s[i] == d[i];
    assert forall i | 0 <= i < |e| :: s[i] == e[i];
    assert s[|d|] == u && s[|e|] == v;
    assert |d| == |e|;
    assert d == s[..|d|] && e == s[..|e|];
    assert t == s[|d| + 1..] && w == s[|e| + 1..];
  }

  lemma GroupsAreNotDigits(gs: seq<Group>)
    requires Valid(gs)
    ensures gs != [] ==> !AllDigits(Render(gs))
  {
    if gs != [] {
      assert ValidGroup(gs[0]);
      assert Render(gs)[|gs[0].digits|] == gs[0].unit;
    }
  }

  lemma RenderCons(gs: seq<Group>, rest: string)
    requires gs != []
    ensures Render(gs) + rest == gs[0].digits + [gs[0].unit] + (Render(gs[1..]) + rest)
  {
  }

  /** A text that starts with digits and goes on with something else has groups
      that start with just those. */
  lemma GroupsStart(digits: string, rest: string, all: seq<Group>)
    requires AllDigits(digits) && Valid(all) && rest != [] && !IsDigit(rest[0])
    requires digits + rest == Render(all)
    ensures all != [] && all[0] == Group(digits, rest[0])
  {
    assert |Render(all)| > 0;
    assert ValidGroup(all[0]);
    assert rest == [rest[0]] + rest[1..];
    SplitUnique(digits, rest[0], rest[1..], all[0].digits, all[0].unit, Render(all[1..]));
  }

  /** A text that starts with groups has groups that start with them. */
  lemma {:induction false} GroupsContinue(gs: seq<Group>, rest: string, all: seq<Group>)
    requires Valid(gs) && Valid(all) && Render(gs) + rest == Render(all)
    ensures |gs| <= |all| && gs == all[..|gs|] && Render(all[|gs|..]) == rest
    decreases |gs|
  {
    if gs == [] {
      assert all[0..] == all;
      assert Render(gs) + rest == rest;
    } else {
      RenderCons(gs, rest);
      assert ValidGroup(gs[0]);
      SameFirst(gs[0], Render(gs[1..]) + rest, all);
      hide Render, ValidGroup;
      GroupsContinue(gs[1..], rest, all[1..]);
      assert gs == [gs[0]] + gs[1..] && all[..|gs|] == [all[0]] + all[1..][..|gs| - 1];
      assert all[1..][|gs| - 1..] == all[|gs|..];
    }
  }

  lemma SameFirst(g: Group, tail: string, all: seq<Group>)
    requires ValidGroup(g) && Valid(all) && g.digits + [g.unit] + tail == Render(all)
    ensures all != [] && all[0] == g && Render(all[1..]) == tail
  {
    assert g.digits + ([g.unit] + tail) == g.digits + [g.unit] + tail;
    GroupsStart(g.digits, [g.unit] + tail, all);
    SplitUnique(g.digits, g.unit, tail, g.digits, g.unit, Render(all[1..]));
  }

  lemma MeansOnce(raw: string, gs: seq<Group>, seconds: nat, hs: seq<Group>, other: nat)
    requires Means(raw, gs, seconds) && Means(raw, hs, other)
    ensures gs == hs && seconds == other
  {
    assert Render(gs) + [] == Render(hs);
    GroupsContinue(gs, [], hs);
    GroupsAreNotDigits(hs[|gs|..]);
    assert hs == hs[..|gs|] + hs[|gs|..];
  }

  // ----- the parser -----

  datatype ParseError = Empty | MissingUnit | NotANumber | Overflow

  /** The parser has read `gs` and then `digits`. */
  ghost predicate HasRead(text: string, i: nat, gs: seq<Group>, digits: string) {
    i <= |text| && Valid(gs) && AllDigits(digits) && text[..i] == Render(gs) + digits
  }

  ghost predicate Spells(text: string, gs: seq<Group>) {
    gs != [] && Valid(gs) && Render(gs) == text
  }

  lemma SplitsAt(text: string, i: nat, gs: seq<Group>, digits: string)
    requires HasRead(text, i, gs, digits)
    ensures Render(gs) + (digits + text[i..]) == text
  {
    hide Render, AllDigits, Valid;
    assert text == text[..i] + text[i..];
    assert Render(gs) + (digits + text[i..]) == (Render(gs) + digits) + text[i..];
  }

  /** Whatever groups spell the text, the next of them is what was just read. */
  lemma NextGroup(text: string, i: nat, gs: seq<Group>, digits: string, all: seq<Group>)
    requires HasRead(text, i, gs, digits) && i < |text| && !IsDigit(text[i])
    requires Valid(all) && Render(all) == text
    ensures |gs| < |all| && all[..|gs|] == gs && all[|gs|] == Group(digits, text[i])
    ensures ValidGroup(Group(digits, text[i]))
  {
    SplitsAt(text, i, gs, digits);
    GroupsContinue(gs, digits + text[i..], all);
    hide Render, AllDigits;
    GroupsStart(digits, text[i..], all[|gs|..]);
    assert all[|gs|] == all[|gs|..][0];
  }

  lemma NoGroupsFrom(text: string, i: nat, gs: seq<Group>, digits: string)
    requires HasRead(text, i, gs, digits) && i < |text| && !IsDigit(text[i])
    requires digits == [] || !IsUnit(text[i])
    ensures forall all :: !Spells(text, all)
  {
    hide HasRead;
    forall all
      ensures !Spells(text, all)
    {
      if Spells(text, all) {
        NextGroup(text, i, gs, digits, all);
      }
    }
  }

  lemma NoGroupsAtEnd(text: string, gs: seq<Group>, digits: string)
    requires HasRead(text, |text|, gs, digits) && (digits != [] || gs == [])
    ensures forall all :: !Spells(text, all)
  {
    assert text[..|text|] == text;
    hide Render, AllDigits;
    forall all
      ensures !Spells(text, all)
    {
      if Spells(text, all) {
        GroupsContinue(gs, digits, all);
        GroupsAreNotDigits(all[|gs|..]);
      }
    }
  }

  lemma {:induction false} TotalGrows(all: seq<Group>, n: nat)
    requires Valid(all) && n <= |all|
    ensures Total(all[..n]) <= Total(all)
    decreases |all| - n
  {
    if n == |all| {
      assert all[..n] == all;
    } else {
      TotalGrows(all, n + 1);
      assert all[..n + 1][..n] == all[..n];
    }
  }

  lemma RenderSnoc(gs: seq<Group>, g: Group)
    ensures Render(gs + [g]) == Render(gs) + g.digits + [g.unit]
    decreases |gs|
  {
    if gs == [] {
      assert (gs + [g])[1..] == [];
      assert Render(gs + [g]) == g.digits + [g.unit] + "" == "" + g.digits + [g.unit];
    } else {
      RenderSnoc(gs[1..], g);
      assert (gs + [g])[1..] == gs[1..] + [g];
      var d, u, rest := gs[0].digits, [gs[0].unit], Render(gs[1..]);
      assert d + u + (rest + g.digits + [g.unit]) == (d + u + rest) + g.digits + [g.unit];
    }
  }

  lemma TotalSnoc(gs: seq<Group>, g: Group)
    requires Valid(gs) && ValidGroup(g)
    ensures Valid(gs + [g]) && Total(gs + [g]) == Total(gs) + Value(g.digits) * Seconds(g.unit)
  {
    assert (gs + [g])[..|gs|] == gs;
  }

  lemma TooLarge(text: string, i: nat, gs: seq<Group>, digits: string)
    requires HasRead(text, i, gs, digits) && i < |text| && digits != [] && IsUnit(text[i])
    ensures forall all | Spells(text, all) :: Total(all) >= Total(gs) + Value(digits) * Seconds(text[i])
  {
    var g := Group(digits, text[i]);
    TotalSnoc(gs, g);
    hide Render, AllDigits, Total, Value;
    forall all | Spells(text, all)
      ensures Total(all) >= Total(gs + [g])
    {
      NextGroup(text, i, gs, digits, all);
      assert all[..|gs| + 1] == gs + [g];
      TotalGrows(all, |gs| + 1);
    }
  }

  /** The loop over the characters. */
  method ReadGroups(text: string) returns (r: Result<U64, ParseError>)
    ensures r.Ok? ==> exists gs :: Spells(text, gs) && Total(gs) == r.value
    ensures r.Err? ==> forall gs | Spells(text, gs) :: Total(gs) >= U64_BOUND
    ensures r.Err? && !r.error.Overflow? ==> forall gs :: !Spells(text, gs)
    ensures r.Err? ==> !r.error.Empty?
  {
    hide AllDigits, Value, Total, Render, Valid, HasRead, Spells, IsDigit, Seconds;
    var total: U64 := 0;
    var digits := "";
    var sawUnit := false;
    ghost var gs: seq<Group> := [];
    Nothing(text);
    for i := 0 to |text|
      invariant Reading(text, i, gs, digits, total) && sawUnit == (gs != [])
    {
      var ch := text[i];
      if IsDigit(ch) {
        PushDigit(text, i, gs, digits);
        digits := digits + [ch];
        continue;
      }
      if !IsUnit(ch) {
        NoGroupsFrom(text, i, gs, digits);
        return Err(MissingUnit);
      }
      if digits == "" {
        NoGroupsFrom(text, i, gs, digits);
        return Err(NotANumber);
      }
      var value := Value(digits);
      var scaled := value * Seconds(ch);
      if value >= U64_BOUND || scaled >= U64_BOUND || total + scaled >= U64_BOUND {
        TooLarge(text, i, gs, digits);
        AtLeast(value, ch);
        return Err(Overflow);
      }
      PushGroup(text, i, gs, digits);
      gs := gs + [Group(digits, ch)];
      total := total + scaled;
      digits := "";
      sawUnit := true;
    }
    if digits != "" || !sawUnit {
      NoGroupsAtEnd(text, gs, digits);
      return Err(MissingUnit);
    }
    AllRead(text, gs, total);
    return Ok(total);
  }

  ghost predicate Reading(text: string, i: nat, gs: seq<Group>, digits: string, total: nat) {
    HasRead(text, i, gs, digits) && AllDigits(digits) && Valid(gs) && total == Total(gs)
  }

  lemma Nothing(text: string)
    ensures Reading(text, 0, [], "", 0)
  {
  }

  lemma AllRead(text: string, gs: seq<Group>, total: nat)
    requires Reading(text, |text|, gs, "", total) && gs != []
    ensures Spells(text, gs) && Total(gs) == total
  {
    assert text[..|text|] == text;
    assert Render(gs) + "" == Render(gs);
  }

  lemma AtLeast(value: nat, unit: char)
    requires IsUnit(unit)
    ensures value * Seconds(unit) >= value
  {
  }

  lemma PushDigit(text: string, i: nat, gs: seq<Group>, digits: string)
    requires HasRead(text, i, gs, digits) && i < |text| && IsDigit(text[i])
    ensures HasRead(text, i + 1, gs, digits + [text[i]]) && AllDigits(digits + [text[i]])
  {
    assert text[..i + 1] == text[..i] + [text[i]];
    assert Render(gs) + (digits + [text[i]]) == Render(gs) + digits + [text[i]];
  }

  lemma PushGroup(text: string, i: nat, gs: seq<Group>, digits: string)
    requires HasRead(text, i, gs, digits) && i < |text| && digits != [] && IsUnit(text[i])
    ensures Reading(text, i + 1, gs + [Group(digits, text[i])], "", Total(gs) + Value(digits) * Seconds(text[i]))
  {
    var g := Group(digits, text[i]);
    TotalSnoc(gs, g);
    RenderSnoc(gs, g);
    assert AllDigits("");
    hide Render, Total, Value, Seconds, AllDigits, Valid, IsUnit;
    PrefixStep(text, i, Render(gs) + digits);
  }

  lemma PrefixStep(text: string, i: nat, prefix: string)
    requires i < |text| && text[..i] == prefix
    ensures text[..i + 1] == prefix + [text[i]] + ""
  {
  }

  /** `Budget::from_str`: it succeeds exactly on one or more groups whose exact sum
      fits in 64 bits, and returns that sum. */
  method FromStr(raw: string) returns (r: Result<U64, ParseError>)
    ensures r.Ok? <==> exists gs, seconds: nat :: Means(raw, gs, seconds) && seconds < U64_BOUND
    ensures r.Ok? ==> exists gs :: Means(raw, gs, r.value)
    ensures r == Err(Empty) <==> Trim(raw) == ""
  {
    hide Trim, LowerAll, Render, Valid, Total;
    var text := Trim(raw);
    if text == "" {
      NothingIsMeant(raw);
      return Err(Empty);
    }
    var body := text;
    if HasPrefix(text) {
      if text[2..] == "" {
        NothingIsMeant(raw);
        return Err(MissingUnit);
      }
      body := LowerAll(text[2..]);
    }
    r := ReadGroups(body);
    assert body == Body(raw);
    MeansIsSpells(raw);
    if r.Ok? {
      ghost var gs :| Spells(body, gs) && Total(gs) == r.value;
      assert Means(raw, gs, r.value);
    }
  }

  lemma MeansIsSpells(raw: string)
    ensures forall gs, seconds: nat :: Means(raw, gs, seconds) <==> Spells(Body(raw), gs) && Total(gs) == seconds
  {
  }

  lemma NothingIsMeant(raw: string)
    requires Trim(raw) == "" || (HasPrefix(Trim(raw)) && Trim(raw)[2..] == "")
    ensures forall gs, seconds: nat :: !Means(raw, gs, seconds)
  {
    hide Trim;
    assert Body(raw) == "";
    Nothing("");
    NoGroupsAtEnd("", [], "");
    MeansIsSpells(raw);
  }

  // ----- the printer -----

  function Part(n: nat, unit: char): string {
    if n > 0 then Digits(n) + [unit] else ""
  }

  /** What `Display` writes for so many hours, minutes and seconds. */
  function IsoText(h: nat, m: nat, s: nat): string {
    "PT" + (Part(h, 'H') + Part(m, 'M') + LastPart(h, m, s))
  }

  /** Seconds are written when nothing else is, too. */
  function LastPart(h: nat, m: nat, s: nat): string {
    if s > 0 || (h == 0 && m == 0) then Digits(s) + ['S'] else ""
  }

  /** `Display`. */
  function Iso(seconds: U64): string {
    IsoText(seconds / 3600, seconds % 3600 / 60, seconds % 60)
  }

  function PartGroup(n: nat, unit: char): seq<Group> {
    if n > 0 then [Group(Digits(n), unit)] else []
  }

  function LastGroup(h: nat, m: nat, s: nat): seq<Group> {
    if s > 0 || (h == 0 && m == 0) then [Group(Digits(s), 's')] else []
  }

  /** The groups it writes. */
  function IsoGroups(h: nat, m: nat, s: nat): seq<Group> {
    PartGroup(h, 'h') + PartGroup(m, 'm') + LastGroup(h, m, s)
  }

  lemma RenderConcat(gs: seq<Group>, hs: seq<Group>)
    ensures Render(gs + hs) == Render(gs) + Render(hs)
    decreases |gs|
  {
    if gs == [] {
      assert gs + hs == hs;
      assert Render(gs) + Render(hs) == Render(hs);
    } else {
      RenderConcat(gs[1..], hs);
      assert (gs + hs)[1..] == gs[1..] + hs;
    }
  }

  lemma LowerDigits(n: nat, unit: char)
    ensures LowerAll(Digits(n) + [unit]) == Digits(n) + [Lower(unit)]
  {
    assert forall i | 0 <= i < |Digits(n)| :: IsDigit(Digits(n)[i]);
  }

  lemma LowerConcat(s: string, t: string)
    ensures LowerAll(s + t) == LowerAll(s) + LowerAll(t)
  {
  }

  lemma RenderOne(n: nat, unit: char)
    ensures Render([Group(Digits(n), unit)]) == Digits(n) + [unit]
  {
    assert [Group(Digits(n), unit)][1..] == [];
  }

  lemma LowerPart(n: nat, unit: char)
    requires 'A' <= unit <= 'Z'
    ensures LowerAll(Part(n, unit)) == Render(PartGroup(n, Lower(unit)))
  {
    LowerDigits(n, unit);
    RenderOne(n, Lower(unit));
  }

  lemma LowerLast(h: nat, m: nat, s: nat)
    ensures LowerAll(LastPart(h, m, s)) == Render(LastGroup(h, m, s))
  {
    LowerDigits(s, 'S');
    RenderOne(s, 's');
  }

  /** After the prefix, folding case turns what is written into its groups. */
  lemma IsoRenders(h: nat, m: nat, s: nat)
    ensures "PT" <= IsoText(h, m, s) && LowerAll(IsoText(h, m, s)[2..]) == Render(IsoGroups(h, m, s))
  {
    var x, y, z := Part(h, 'H'), Part(m, 'M'), LastPart(h, m, s);
    hide LowerAll, Render, Part, PartGroup, LastPart, LastGroup;
    assert IsoText(h, m, s)[2..] == x + y + z;
    LowerPart(h, 'H');
    LowerPart(m, 'M');
    LowerLast(h, m, s);
    LowerConcat(x, y);
    LowerConcat(x + y, z);
    RenderConcat(PartGroup(h, 'h'), PartGroup(m, 'm'));
    RenderConcat(PartGroup(h, 'h') + PartGroup(m, 'm'), LastGroup(h, m, s));
  }

  lemma PartTotal(gs: seq<Group>, n: nat, unit: char)
    requires Valid(gs) && IsUnit(unit)
    ensures Valid(gs + PartGroup(n, unit)) && Total(gs + PartGroup(n, unit)) == Total(gs) + n * Seconds(unit)
  {
    hide Total, Valid, Digits, Value, Seconds;
    if n > 0 {
      TotalSnoc(gs, Group(Digits(n), unit));
    } else {
      assert gs + [] == gs;
    }
  }

  lemma LastTotal(gs: seq<Group>, h: nat, m: nat, s: nat)
    requires Valid(gs)
    ensures Valid(gs + LastGroup(h, m, s)) && Total(gs + LastGroup(h, m, s)) == Total(gs) + s
  {
    assert gs + [] == gs;
    hide Total, Valid, Digits, Value;
    assert ValidGroup(Group(Digits(s), 's')) && Seconds('s') == 1;
    TotalSnoc(gs, Group(Digits(s), 's'));
  }

  lemma FirstTotal(h: nat)
    ensures Valid(PartGroup(h, 'h')) && Total(PartGroup(h, 'h')) == 3600 * h
  {
    var none: seq<Group> := [];
    PartTotal(none, h, 'h');
    assert none + PartGroup(h, 'h') == PartGroup(h, 'h');
  }

  lemma IsoTotals(h: nat, m: nat, s: nat)
    ensures Valid(IsoGroups(h, m, s)) && Total(IsoGroups(h, m, s)) == 3600 * h + 60 * m + s
  {
    hide Total, Valid, PartGroup, LastGroup;
    FirstTotal(h);
    PartTotal(PartGroup(h, 'h'), m, 'm');
    LastTotal(PartGroup(h, 'h') + PartGroup(m, 'm'), h, m, s);
  }

  lemma IsoNotEmpty(h: nat, m: nat, s: nat)
    ensures IsoGroups(h, m, s) != []
  {
    assert |PartGroup(h, 'h')| + |PartGroup(m, 'm')| + |LastGroup(h, m, s)| > 0;
  }

  lemma IsoIsTrimmed(h: nat, m: nat, s: nat)
    ensures Trim(IsoText(h, m, s)) == IsoText(h, m, s)
  {
    var text := IsoText(h, m, s);
    assert text[0] == 'P';
    var last := text[|text| - 1];
    assert last == 'H' || last == 'M' || last == 'S';
    assert !IsWhitespace(last) && !IsWhitespace('P');
  }

  /** Every budget reads back from its own rendering. */
  lemma IsoMeans(seconds: U64)
    ensures Means(Iso(seconds), IsoGroups(seconds / 3600, seconds % 3600 / 60, seconds % 60), seconds)
  {
    hide IsoText, IsoGroups, Render, Total, Valid, LowerAll, Trim;
    var h, m, s := seconds / 3600, seconds % 3600 / 60, seconds % 60;
    IsoIsTrimmed(h, m, s);
    IsoRenders(h, m, s);
    IsoTotals(h, m, s);
    IsoNotEmpty(h, m, s);
    AddsUp(seconds);
  }

  lemma AddsUp(x: nat)
    ensures 3600 * (x / 3600) + 60 * (x % 3600 / 60) + x % 60 == x
  {
    var h, rest := x / 3600, x % 3600;
    var m, last := rest / 60, rest % 60;
    assert x == 3600 * h + rest && rest == 60 * m + last;
    RemainderIs(x, 60 * h + m, last);
  }

  lemma RemainderIs(x: nat, q: nat, last: nat)
    requires x == 60 * q + last && last < 60
    ensures x % 60 == last
  {
  }

  /** Minutes and seconds stay below sixty, units come in order, and a zero is
      written only when there is nothing else to write. */
  lemma IsoIsCanonical(seconds: U64)
    ensures
      var gs := IsoGroups(seconds / 3600, seconds % 3600 / 60, seconds % 60);
      && (forall i | 0 <= i < |gs| :: ValidGroup(gs[i]) && (gs[i].unit != 'h' ==> Value(gs[i].digits) < 60))
      && (forall i, j | 0 <= i < j < |gs| :: ValidGroup(gs[i]) && ValidGroup(gs[j]) && Seconds(gs[i].unit) > Seconds(gs[j].unit))
      && (forall i | 0 <= i < |gs| && ValidGroup(gs[i]) && Value(gs[i].digits) == 0 :: |gs| == 1)
  {
    hide Value;
  }

  method RoundTrip(seconds: U64) returns (r: Result<U64, ParseError>)
    ensures r == Ok(seconds)
  {
    hide Iso, IsoGroups, Means;
    ghost var written := IsoGroups(seconds / 3600, seconds % 3600 / 60, seconds % 60);
    IsoMeans(seconds);
    r := FromStr(Iso(seconds));
    ghost var gs :| Means(Iso(seconds), gs, r.value);
    MeansOnce(Iso(seconds), gs, r.value, written, seconds);
  }
}
