/**
 What patterns with ranges expand to: every combination of the numbers of their ranges, in
 lexicographic order, with the text between them unchanged.
 */
module RangeProduct {
  import opened Common
  import opened Decimal
  import opened Text
  import opened HostPattern

  // ---------- text without ranges in front ----------

  function Shift(found: Found, n: nat): Found {
    match found
    case Range(lo, hi) => Range(lo + n, hi + n)
    case _ => found
  }

  lemma {:induction false} NextBehind(start: string, rest: string, c: char, j: nat)
    requires j <= |rest|
    ensures Next(start + rest, c, |start| + j) == |start| + Next(rest, c, j)
    decreases |rest| - j
  {
    if j < |rest| && rest[j] != c {
      NextBehind(start, rest, c, j + 1);
    }
  }

  lemma {:induction false} NextInFront(start: string, rest: string, c: char, i: nat)
    requires i <= |start| && Next(start, c, i) < |start|
    ensures Next(start + rest, c, i) == Next(start, c, i)
    decreases |start| - i
  {
    if start[i] != c {
      NextInFront(start, rest, c, i + 1);
    }
  }

  lemma {:induction false} FindBehind(start: string, rest: string, j: nat)
    requires j <= |rest|
    ensures FindFrom(start + rest, |start| + j) == Shift(FindFrom(rest, j), |start|)
    decreases |rest| - j
  {
    hide IsRangeInner;
    if j < |rest| {
      FindBehind(start, rest, j + 1);
      var all := start + rest;
      if rest[j] == '{' {
        NextBehind(start, rest, '}', j + 1);
        var close := Next(rest, '}', j + 1);
        if close < |rest| {
          assert all[|start| + j + 1..|start| + close] == rest[j + 1..close];
        }
      }
    }
  }

  /** Text in which no range and no open brace is found does not change what is found behind it. */
  lemma {:induction false} FindPast(start: string, rest: string, i: nat)
    requires i <= |start| && FindFrom(start, i) == NoRange
    ensures FindFrom(start + rest, i) == Shift(FindFrom(rest, 0), |start|)
    decreases |start| - i
  {
    hide IsRangeInner;
    if i == |start| {
      FindBehind(start, rest, 0);
    } else {
      FindPast(start, rest, i + 1);
      if start[i] == '{' {
        NextInFront(start, rest, '}', i + 1);
        var close := Next(start, '}', i + 1);
        assert (start + rest)[i + 1..close] == start[i + 1..close];
      }
    }
  }

  lemma NormalConcat(a: string, b: string)
    requires Normal(a) && Normal(b)
    ensures Normal(a + b)
  {
    FindPast(a, b, 0);
  }

  lemma {:induction false} NoBraceIsNormal(s: string, i: nat)
    requires '{' !in s && i <= |s|
    ensures FindFrom(s, i) == NoRange
    decreases |s| - i
  {
    if i < |s| {
      assert s[i] in s;
      NoBraceIsNormal(s, i + 1);
    }
  }

  lemma DigitsAreNormal(text: string)
    requires AllDigits(text)
    ensures Normal(text)
  {
    assert '{' !in text;
    NoBraceIsNormal(text, 0);
  }

  // ---------- the first range of a pattern ----------

  function RangePattern(start: string, spec: Spec, end: string): string {
    start + "{" + spec.a + ".." + spec.b + "}" + end
  }

  predicate IsSpec(spec: Spec) {
    spec.a != "" && spec.b != "" && AllDigits(spec.a) && AllDigits(spec.b)
  }

  /** Whether a range can be expanded at all, and the numbers it counts through. */
  predicate Countable(spec: Spec)
    requires IsSpec(spec)
  {
    && Value(spec.a) <= I64_MAX && Value(spec.b) <= I64_MAX
    && |Numbers(Value(spec.a), Value(spec.b))| <= MAX_HOSTS
  }

  lemma SpecInner(spec: Spec)
    requires IsSpec(spec)
    ensures IsRangeInner(spec.a + ".." + spec.b) && SpecOf(spec.a + ".." + spec.b) == spec
    ensures '}' !in spec.a + ".." + spec.b
  {
    var inner := spec.a + ".." + spec.b;
    var d := Dots(inner, 0);
    assert inner[|spec.a|] == '.' && inner[|spec.a| + 1] == '.';
    forall k | 0 <= k < |spec.a| ensures inner[k] != '.' {
      assert inner[k] == spec.a[k];
    }
    assert inner[..d] == spec.a && inner[d + 2..] == spec.b;
  }

  lemma RangeParts(start: string, spec: Spec, end: string)
    ensures var hi := |start| + 1 + |spec.a| + 2 + |spec.b|; var pat := RangePattern(start, spec, end);
            && pat == start + "{" + (spec.a + ".." + spec.b) + "}" + end
            && pat[..|start|] == start && pat[|start| + 1..hi] == spec.a + ".." + spec.b && pat[hi + 1..] == end
  {
  }

  lemma RangeAtFirstBrace(start: string, inner: string, end: string, pat: string)
    requires '}' !in inner && IsRangeInner(inner) && pat == start + "{" + inner + "}" + end
    ensures RangeAt(pat, |start|, |start| + 1 + |inner|)
  {
    hide IsRangeInner;
    var lo, hi := |start|, |start| + 1 + |inner|;
    assert pat[lo + 1..hi] == inner;
    forall k | lo + 1 <= k < hi ensures pat[k] != '}' {
      assert pat[k] == inner[k - lo - 1];
    }
    assert pat[hi] == '}';
  }

  /** No range is found from i on. */
  predicate NoneFrom(s: string, i: nat)
    requires i <= |s|
  {
    !FindFrom(s, i).Range?
  }

  lemma NoneLater(start: string, i: nat)
    requires i < |start| && NoneFrom(start, i)
    ensures NoneFrom(start, i + 1)
  {
    hide IsRangeInner, RangeAt, NoRangeAt;
    if OpenAt(start, i) {
      FindFromMeans(start, i + 1);
      if FindFrom(start, i + 1).Range? {
        NoRangeAfterOpen(start, i, FindFrom(start, i + 1).lo);
        IsARange(start, FindFrom(start, i + 1).lo, FindFrom(start, i + 1).hi);
      }
    }
  }

  lemma IsARange(s: string, lo: nat, hi: nat)
    requires RangeAt(s, lo, hi)
    ensures !NoRangeAt(s, lo)
  {
    hide RangeAt;
  }

  lemma {:induction false} NextAcross(start: string, rest: string, c: char, i: nat)
    requires i <= |start| && Next(start, c, i) == |start|
    ensures Next(start + rest, c, i) == |start| + Next(rest, c, 0)
    decreases |start| - i
  {
    if i == |start| {
      NextBehind(start, rest, c, 0);
    } else {
      NextAcross(start, rest, c, i + 1);
    }
  }

  lemma BraceIsNoRange(inner: string, k: nat)
    requires k < |inner| && inner[k] == '{'
    ensures !IsRangeInner(inner)
  {
    var d := Dots(inner, 0);
    if 0 < d < |inner| && d + 2 < |inner| {
      if k < d {
        assert inner[..d][k] == '{';
      } else if k >= d + 2 {
        assert inner[d + 2..][k - d - 2] == '{';
      }
    }
  }

  /** A brace that only the range's own closing brace would close contains the range's opening brace: no range. */
  lemma OpenIsPassed(start: string, rest: string, h: nat, i: nat)
    requires i < |start| && start[i] == '{' && Next(start, '}', i + 1) == |start| && RangeAt(rest, 0, h)
    ensures FindFrom(start + rest, i) == FindFrom(start + rest, i + 1)
  {
    hide IsRangeInner;
    var all := start + rest;
    NextAcross(start, rest, '}', i + 1);
    assert Next(rest, '}', 0) == h;
    var inner := all[i + 1..|start| + h];
    assert inner[|start| - i - 1] == rest[0];
    BraceIsNoRange(inner, |start| - i - 1);
  }

  /** The search passes over text in which it finds no range, with or without open braces, to the range behind it. */
  lemma {:induction false} FoundBehind(start: string, rest: string, h: nat, i: nat)
    requires i <= |start| && NoneFrom(start, i) && RangeAt(rest, 0, h)
    ensures FindFrom(start + rest, i) == Range(|start|, |start| + h)
    decreases |start| - i
  {
    hide IsRangeInner, RangeAt;
    if i == |start| {
      FindBehind(start, rest, 0);
      FoundAtOnce(rest, h);
    } else {
      NoneLater(start, i);
      FoundBehind(start, rest, h, i + 1);
      if start[i] == '{' {
        var close := Next(start, '}', i + 1);
        if close == |start| {
          OpenIsPassed(start, rest, h, i);
        } else {
          NextInFront(start, rest, '}', i + 1);
          assert (start + rest)[i + 1..close] == start[i + 1..close];
        }
      }
    }
  }

  lemma RangeFound(start: string, spec: Spec, end: string)
    requires IsSpec(spec) && NoneFrom(start, 0)
    ensures var hi := |start| + 1 + |spec.a| + 2 + |spec.b|; var pat := RangePattern(start, spec, end);
            && RangeAt(pat, |start|, hi) && FindFrom(pat, 0) == Range(|start|, hi)
            && pat[..|start|] == start && SpecOf(pat[|start| + 1..hi]) == spec && pat[hi + 1..] == end
  {
    hide IsRangeInner, SpecOf, AllDigits, FindFrom, RangePattern, RangeAt, NoneFrom;
    var inner := spec.a + ".." + spec.b;
    var pat, rest := RangePattern(start, spec, end), "{" + inner + "}" + end;
    RangeParts(start, spec, end);
    SpecInner(spec);
    RangeAtFirstBrace(start, inner, end, pat);
    RangeAtFirstBrace("", inner, end, rest);
    assert pat == start + rest;
    FoundBehind(start, rest, |inner| + 1, 0);
  }

  lemma FoundAtOnce(s: string, hi: nat)
    requires RangeAt(s, 0, hi)
    ensures FindFrom(s, 0) == Range(0, hi)
  {
    hide IsRangeInner;
  }

  /** The numbers of a range in their surroundings. */
  lemma SubstitutesAre(start: string, spec: Spec, end: string)
    requires IsSpec(spec) && NoneFrom(start, 0)
    ensures var pat, hi := RangePattern(start, spec, end), |start| + 1 + |spec.a| + 2 + |spec.b|;
            && RangeAt(pat, |start|, hi) && FindFrom(pat, 0) == Range(|start|, hi)
            && Substitutes(pat, |start|, hi).Ok? == Countable(spec)
            && (Countable(spec) ==> Substitutes(pat, |start|, hi).value == Wrapped(start, Texts(spec), end))
  {
    hide FindFrom, RangeAt, Braces, Value, SpecOf, RangePattern, Texts, NoneFrom, Numbers;
    RangeFound(start, spec, end);
  }

  // ---------- several ranges ----------

  /** A range and the text that follows it. */
  datatype Part = Part(spec: Spec, text: string)

  function Pattern(start: string, parts: seq<Part>): string
    decreases |parts|
  {
    if parts == [] then start else RangePattern(start, parts[0].spec, Pattern(parts[0].text, parts[1..]))
  }

  predicate AllSpecs(parts: seq<Part>) {
    forall k :: 0 <= k < |parts| ==> IsSpec(parts[k].spec)
  }

  predicate AllCountable(parts: seq<Part>)
    requires AllSpecs(parts)
  {
    forall k :: 0 <= k < |parts| ==> Countable(parts[k].spec)
  }

  /** What can stand at one place, and the text that follows it. */
  datatype Slot = Slot(texts: seq<string>, text: string)

  function SlotOf(part: Part): Slot
    requires IsSpec(part.spec)
  {
    Slot(Texts(part.spec), part.text)
  }

  function Slots(parts: seq<Part>): (slots: seq<Slot>)
    requires AllSpecs(parts)
    ensures |slots| == |parts| && forall k :: 0 <= k < |parts| ==> slots[k] == SlotOf(parts[k])
  {
    seq(|parts|, k requires 0 <= k < |parts| => SlotOf(parts[k]))
  }

  /** All combinations, the first place varying slowest. */
  function Product(start: string, slots: seq<Slot>): seq<string>
    decreases |slots|, 0
  {
    if slots == [] then [start] else ProductEach(start, slots[0].texts, slots[0].text, slots[1..])
  }

  function ProductEach(start: string, texts: seq<string>, text: string, slots: seq<Slot>): seq<string>
    decreases |slots|, 1, |texts|
  {
    if texts == [] then []
    else
      var n := |texts| - 1;
      ProductEach(start, texts[..n], text, slots) + Product(start + texts[n] + text, slots)
  }

  lemma PatternBehind(start: string, text: string, parts: seq<Part>)
    ensures start + Pattern(text, parts) == Pattern(start + text, parts)
  {
    if parts != [] {
      var spec, end := parts[0].spec, Pattern(parts[0].text, parts[1..]);
      assert start + RangePattern(text, spec, end) == RangePattern(start + text, spec, end);
    }
  }

  /** As the ranges are filled in one after the other, no other range comes about in what precedes the next one. */
  predicate NoneArises(start: string, parts: seq<Part>)
    requires AllSpecs(parts)
    decreases |parts|
  {
    && NoneFrom(start, 0)
    && (parts != [] ==>
          forall k :: 0 <= k < |Texts(parts[0].spec)| ==>
            NoneArises(start + Texts(parts[0].spec)[k] + parts[0].text, parts[1..]))
  }

  /**
   A pattern from which no further ranges arise expands exactly if all its ranges can and no brace
   of a combination stays open, and then to all combinations in order.
   */
  lemma {:induction false} ExpansionIsProduct(start: string, parts: seq<Part>)
    requires AllSpecs(parts) && NoneArises(start, parts)
    ensures var r := Expansion(Pattern(start, parts)); var all := Product(start, Slots(parts));
            && (r.Ok? <==> AllCountable(parts) && AllNormal(all))
            && (r.Ok? ==> r.value == all)
    decreases |parts|, 0
  {
    hide Normal, NoneFrom, Countable, Texts, Expansion, Braces, IsSpec, RangePattern, ProductEach, AllCountable,
      AllSpecs, AllNormal, ExpandEach, Wrapped, Slots, AllDigits;
    if parts == [] {
      NoParts(parts);
      LastText(start);
    } else {
      var spec, text, later := parts[0].spec, parts[0].text, parts[1..];
      PartsStep(parts);
      IsSpecMeans(spec);
      var bound := ExpandFirst(start, spec, Pattern(text, later));
      if Countable(spec) {
        SomeTexts(spec);
        EachIsProduct(start, Texts(spec), text, later, bound);
      }
    }
  }

  lemma NoParts(parts: seq<Part>)
    requires parts == [] && AllSpecs(parts)
    ensures AllCountable(parts) && Slots(parts) == []
  {
  }

  /** Text in which no range is found is its own expansion, unless a brace stays open. */
  lemma LastText(start: string)
    requires NoneFrom(start, 0)
    ensures Expansion(start).Ok? <==> AllNormal([start])
    ensures Expansion(start).Ok? ==> Expansion(start).value == [start]
  {
    hide FindFrom, Braces, AllNormal;
    NormalAlone(start);
  }

  /** The expansion of a pattern is that of its first range's numbers in their surroundings. */
  lemma ExpandFirst(start: string, spec: Spec, end: string) returns (bound: nat)
    requires IsSpec(spec) && NoneFrom(start, 0)
    ensures AllDigits(spec.a) && AllDigits(spec.b)
    ensures var pats := Wrapped(start, Texts(spec), end); forall k :: 0 <= k < |pats| ==> Braces(pats[k]) <= bound
    ensures var r := Expansion(RangePattern(start, spec, end));
            if Countable(spec) then r == ExpandEach(Wrapped(start, Texts(spec), end), bound) else r.Err?
  {
    hide NoneFrom, Texts, Expansion, Substitutes, RangeAt, FindFrom, Braces, RangePattern, ExpandEach, Wrapped,
      Countable, AllDigits, IsSpec;
    IsSpecMeans(spec);
    var pat, lo, hi := RangePattern(start, spec, end), |start|, |start| + 1 + |spec.a| + 2 + |spec.b|;
    SubstitutesAre(start, spec, end);
    ExpandOnce(pat, lo, hi);
    bound := Braces(pat) - 1;
    SomeTexts(spec);
    RangeParts(start, spec, end);
    WrappedBound(pat, lo, hi, start, Texts(spec), end);
  }

  lemma OneDigit()
    ensures AllDigits("0")
  {
  }

  lemma WrappedBound(pat: string, lo: nat, hi: nat, start: string, texts: seq<string>, end: string)
    requires RangeAt(pat, lo, hi) && forall k :: 0 <= k < |texts| ==> AllDigits(texts[k])
    requires hi < |pat| && lo <= |pat| && pat[..lo] == start && pat[hi + 1..] == end
    ensures Braces(pat) >= 1
    ensures var pats := Wrapped(start, texts, end); forall k :: 0 <= k < |pats| ==> Braces(pats[k]) <= Braces(pat) - 1
  {
    hide RangeAt, Braces, AllDigits;
    OneDigit();
    OneBraceFewer(pat, lo, hi, "0");
    var pats := Wrapped(start, texts, end);
    forall k | 0 <= k < |pats| ensures Braces(pats[k]) <= Braces(pat) - 1 {
      OneBraceFewer(pat, lo, hi, texts[k]);
    }
  }

  lemma IsSpecMeans(spec: Spec)
    requires IsSpec(spec)
    ensures AllDigits(spec.a) && AllDigits(spec.b)
  {
  }

  lemma PartsStep(parts: seq<Part>)
    requires parts != [] && AllSpecs(parts)
    ensures AllSpecs(parts[1..]) && IsSpec(parts[0].spec)
    ensures AllCountable(parts) <==> Countable(parts[0].spec) && AllCountable(parts[1..])
    ensures Slots(parts)[0] == SlotOf(parts[0]) && Slots(parts)[1..] == Slots(parts[1..])
  {
    hide Countable, IsSpec, Texts;
    var later := parts[1..];
    forall k | 0 < k < |parts| ensures parts[k] == later[k - 1] {
    }
    if AllCountable(later) && Countable(parts[0].spec) {
      forall k | 0 <= k < |parts| ensures Countable(parts[k].spec) {
        assert k > 0 ==> parts[k] == later[k - 1];
      }
    }
  }

  lemma SomeTexts(spec: Spec)
    requires IsSpec(spec)
    ensures Texts(spec) != [] && forall k :: 0 <= k < |Texts(spec)| ==> AllDigits(Texts(spec)[k])
  {
  }

  /** One step of the expansion. */
  lemma ExpandOnce(pat: string, lo: nat, hi: nat)
    requires RangeAt(pat, lo, hi) && FindFrom(pat, 0) == Range(lo, hi)
    ensures Braces(pat) >= 1
    ensures Expansion(pat) == match Substitutes(pat, lo, hi)
                              case Err(e) => Err(e)
                              case Ok(pats) => ExpandEach(pats, Braces(pat) - 1)
  {
    hide FindFrom, RangeAt, Braces, Substitutes, ExpandEach;
    OneBraceFewer(pat, lo, hi, "");
  }

  lemma {:induction false} EachIsProduct(start: string, texts: seq<string>, text: string, parts: seq<Part>, bound: nat)
    requires AllSpecs(parts) && forall k :: 0 <= k < |texts| ==> NoneArises(start + texts[k] + text, parts)
    requires var pats := Wrapped(start, texts, Pattern(text, parts));
             forall k :: 0 <= k < |pats| ==> Braces(pats[k]) <= bound
    ensures var r := ExpandEach(Wrapped(start, texts, Pattern(text, parts)), bound);
            var all := ProductEach(start, texts, text, Slots(parts));
            && (r.Ok? <==> (texts == [] || AllCountable(parts)) && AllNormal(all))
            && (r.Ok? ==> r.value == all)
    decreases |parts|, 1, |texts|
  {
    hide Normal, NoneArises, Expansion, Braces, AllSpecs, AllCountable, Pattern, Product, Slots, AllNormal;
    var end := Pattern(text, parts);
    var pats := Wrapped(start, texts, end);
    if texts == [] {
      NoneIsNormal();
    } else {
      var n := |texts| - 1;
      assert pats[..n] == Wrapped(start, texts[..n], end);
      EachIsProduct(start, texts[..n], text, parts, bound);
      PatternBehind(start + texts[n], text, parts);
      ExpansionIsProduct(start + texts[n] + text, parts);
      NormalOfBoth(
        ProductEach(start, texts[..n], text, Slots(parts)), Product(start + texts[n] + text, Slots(parts)));
    }
  }

  lemma NoneIsNormal()
    ensures AllNormal([])
  {
  }

  lemma NormalOfBoth(a: seq<string>, b: seq<string>)
    ensures AllNormal(a + b) <==> AllNormal(a) && AllNormal(b)
  {
    hide Normal;
    if AllNormal(a + b) {
      forall k | 0 <= k < |a| ensures Normal(a[k]) {
        assert (a + b)[k] == a[k];
      }
      forall k | 0 <= k < |b| ensures Normal(b[k]) {
        assert (a + b)[|a| + k] == b[k];
      }
    }
  }

  lemma NormalAlone(host: string)
    ensures AllNormal([host]) <==> Normal(host)
  {
    hide Normal;
    assert [host][0] == host;
  }

  // ---------- text without ranges or open braces ----------

  predicate AllTexts(parts: seq<Part>) {
    forall k :: 0 <= k < |parts| ==> Normal(parts[k].text)
  }

  lemma TextsStep(parts: seq<Part>)
    requires parts != [] && AllTexts(parts)
    ensures AllTexts(parts[1..]) && Normal(parts[0].text)
  {
    hide Normal;
  }

  lemma NormalHasNone(start: string)
    requires Normal(start)
    ensures NoneFrom(start, 0)
  {
  }

  /** Digits between texts without ranges and open braces make neither. */
  lemma {:induction false} NormalTexts(start: string, parts: seq<Part>)
    requires AllSpecs(parts) && Normal(start) && AllTexts(parts)
    ensures NoneArises(start, parts) && AllNormal(Product(start, Slots(parts)))
    decreases |parts|, 0
  {
    hide Normal, NoneFrom, Texts, IsSpec, AllSpecs, AllTexts, AllDigits, AllCountable, ProductEach, AllNormal, Slots;
    NormalHasNone(start);
    if parts == [] {
      NoParts(parts);
      NormalAlone(start);
    } else {
      PartsStep(parts);
      TextsStep(parts);
      SomeTexts(parts[0].spec);
      IsSpecMeans(parts[0].spec);
      NormalTextsEach(start, Texts(parts[0].spec), parts[0].text, parts[1..]);
    }
  }

  lemma {:induction false} NormalTextsEach(start: string, texts: seq<string>, text: string, parts: seq<Part>)
    requires AllSpecs(parts) && Normal(start) && Normal(text) && AllTexts(parts)
    requires forall k :: 0 <= k < |texts| ==> AllDigits(texts[k])
    ensures forall k :: 0 <= k < |texts| ==> NoneArises(start + texts[k] + text, parts)
    ensures AllNormal(ProductEach(start, texts, text, Slots(parts)))
    decreases |parts|, 1, |texts|
  {
    hide Normal, NoneArises, AllSpecs, AllTexts, AllDigits, Product, Slots, AllNormal;
    if texts == [] {
      NoneIsNormal();
    } else {
      var n := |texts| - 1;
      NormalTextsEach(start, texts[..n], text, parts);
      DigitsAreNormal(texts[n]);
      NormalConcat(start, texts[n]);
      NormalConcat(start + texts[n], text);
      NormalTexts(start + texts[n] + text, parts);
      NormalOfBoth(
        ProductEach(start, texts[..n], text, Slots(parts)), Product(start + texts[n] + text, Slots(parts)));
      forall k | 0 <= k < |texts| ensures NoneArises(start + texts[k] + text, parts) {
        assert k < n ==> texts[k] == texts[..n][k];
      }
    }
  }

  /** In such text a pattern expands exactly if all its ranges can, to all combinations in order. */
  lemma ExpansionInNormalText(start: string, parts: seq<Part>)
    requires AllSpecs(parts) && Normal(start) && AllTexts(parts)
    ensures var r := Expansion(Pattern(start, parts));
            && (r.Ok? <==> AllCountable(parts)) && (r.Ok? ==> r.value == Product(start, Slots(parts)))
  {
    hide Normal, NoneArises, Expansion, Product, Slots, AllNormal, AllCountable, AllSpecs, AllTexts, Pattern;
    NormalTexts(start, parts);
    ExpansionIsProduct(start, parts);
  }

  // ---------- the order of the combinations ----------

  function Size(slots: seq<Slot>): nat
    decreases |slots|
  {
    if slots == [] then 1 else |slots[0].texts| * Size(slots[1..])
  }

  /** One text for each place, by its index there. */
  predicate IsChoice(slots: seq<Slot>, choice: seq<nat>) {
    |choice| == |slots| && forall k :: 0 <= k < |slots| ==> choice[k] < |slots[k].texts|
  }

  function Filled(start: string, slots: seq<Slot>, choice: seq<nat>): string
    requires IsChoice(slots, choice)
    decreases |slots|
  {
    if slots == [] then start
    else start + slots[0].texts[choice[0]] + Filled(slots[0].text, slots[1..], choice[1..])
  }

  /** The index of a choice in lexicographic order. */
  function Rank(slots: seq<Slot>, choice: seq<nat>): nat
    requires IsChoice(slots, choice)
    decreases |slots|
  {
    if slots == [] then 0 else choice[0] * Size(slots[1..]) + Rank(slots[1..], choice[1..])
  }

  lemma {:induction false} ProductSize(start: string, slots: seq<Slot>)
    ensures |Product(start, slots)| == Size(slots)
    decreases |slots|, 0
  {
    if slots != [] {
      ProductEachSize(start, slots[0].texts, slots[0].text, slots[1..]);
    }
  }

  lemma {:induction false} ProductEachSize(start: string, texts: seq<string>, text: string, slots: seq<Slot>)
    ensures |ProductEach(start, texts, text, slots)| == |texts| * Size(slots)
    decreases |slots|, 1, |texts|
  {
    hide Size, Product;
    if texts != [] {
      var n := |texts| - 1;
      ProductEachSize(start, texts[..n], text, slots);
      ProductSize(start + texts[n] + text, slots);
      TimesOneMore(n, Size(slots));
    }
  }

  lemma FilledBehind(start: string, text: string, slots: seq<Slot>, choice: seq<nat>)
    requires IsChoice(slots, choice)
    ensures start + Filled(text, slots, choice) == Filled(start + text, slots, choice)
  {
    if slots != [] {
      var middle, end := slots[0].texts[choice[0]], Filled(slots[0].text, slots[1..], choice[1..]);
      assert start + (text + middle + end) == (start + text) + middle + end;
    }
  }

  /** The combinations are in lexicographic order: each choice of texts stands at its rank. */
  lemma {:induction false} ProductAt(start: string, slots: seq<Slot>, choice: seq<nat>)
    requires IsChoice(slots, choice)
    ensures Rank(slots, choice) < Size(slots) == |Product(start, slots)|
    ensures Product(start, slots)[Rank(slots, choice)] == Filled(start, slots, choice)
    decreases |slots|, 0
  {
    ProductSize(start, slots);
    if slots != [] {
      hide ProductEach, Size;
      SizeStep(slots);
      ProductEachAt(start, slots[0].texts, slots[0].text, slots[1..], choice[0], choice[1..]);
    }
  }

  lemma SizeStep(slots: seq<Slot>)
    requires slots != []
    ensures Size(slots) == |slots[0].texts| * Size(slots[1..])
  {
  }

  lemma {:induction false} ProductEachAt(
    start: string, texts: seq<string>, text: string, slots: seq<Slot>, c: nat, tail: seq<nat>)
    requires IsChoice(slots, tail) && c < |texts|
    ensures var i := c * Size(slots) + Rank(slots, tail); var all := ProductEach(start, texts, text, slots);
            i < |all| == |texts| * Size(slots) && all[i] == start + texts[c] + Filled(text, slots, tail)
    decreases |slots|, 1, |texts|
  {
    hide IsChoice, Size, Product, Filled, Rank;
    var n := |texts| - 1;
    var before, last := ProductEach(start, texts[..n], text, slots), Product(start + texts[n] + text, slots);
    ProductAt(start + texts[n] + text, slots, tail);
    TimesFewer(c, n + 1, Size(slots));
    ProductEachSize(start, texts, text, slots);
    ProductEachSize(start, texts[..n], text, slots);
    if c < n {
      ProductEachAt(start, texts[..n], text, slots, c, tail);
    } else {
      FilledBehind(start + texts[n], text, slots, tail);
    }
  }

  // ---------- padding ----------

  /** The first number of a range is printed as its start token is written, leading zeros included. */
  lemma StartIsKept(spec: Spec)
    requires IsSpec(spec)
    ensures Texts(spec) != [] && Texts(spec)[0] == spec.a
  {
    hide PrintPadded, Value, AllDigits, Numbers;
    ReprintedValue(spec.a);
  }

  /**
   A start of several digits with a leading zero makes every number at least as wide; any other
   start has every number printed plainly.
   */
  lemma TextsArePadded(spec: Spec, k: nat)
    requires IsSpec(spec) && k < |Texts(spec)|
    ensures Value(Texts(spec)[k]) == Numbers(Value(spec.a), Value(spec.b))[k]
    ensures var n := Numbers(Value(spec.a), Value(spec.b))[k];
            if |spec.a| > 1 && spec.a[0] == '0'
            then |Texts(spec)[k]| == if |Print(n)| < |spec.a| then |spec.a| else |Print(n)|
            else Texts(spec)[k] == Print(n)
  {
    ValueOfPadded(Numbers(Value(spec.a), Value(spec.b))[k], Width(spec.a));
  }

  /** So the first host of a range is its pattern with the braces and the end taken out. */
  lemma FirstHost(start: string, spec: Spec, end: string)
    requires IsSpec(spec) && NoneArises(start, [Part(spec, end)])
    requires Expansion(RangePattern(start, spec, end)).Ok?
    ensures var hosts := Expansion(RangePattern(start, spec, end)).value;
            hosts != [] && hosts[0] == start + spec.a + end
  {
    hide Expansion, NoneArises, RangePattern, Distinct, AllNormal, Countable;
    SingleRange(start, spec, end);
    StartIsKept(spec);
  }

  // ---------- a single range ----------

  lemma WrappedDistinct(start: string, ns: seq<nat>, width: nat, end: string, hosts: seq<string>)
    requires |hosts| == |ns| && forall k :: 0 <= k < |hosts| ==> hosts[k] == start + PrintPadded(ns[k], width) + end
    requires forall i, j :: 0 <= i < j < |ns| ==> ns[i] != ns[j]
    ensures Distinct(hosts)
  {
    forall i, j | 0 <= i < j < |hosts| ensures hosts[i] != hosts[j] {
      var x, y := PrintPadded(ns[i], width), PrintPadded(ns[j], width);
      ValueOfPadded(ns[i], width);
      ValueOfPadded(ns[j], width);
      assert hosts[i][|start|..|hosts[i]| - |end|] == x;
      assert hosts[j][|start|..|hosts[j]| - |end|] == y;
    }
  }

  /**
   A single range, whatever braces surround it as long as no other range comes about, expands exactly
   when its numbers fit and are at most 10,000 and no brace stays open: to as many different hosts,
   counting from start to end.
   */
  lemma SingleRange(start: string, spec: Spec, end: string)
    requires IsSpec(spec) && NoneArises(start, [Part(spec, end)])
    ensures var r := Expansion(RangePattern(start, spec, end)); var ns := Numbers(Value(spec.a), Value(spec.b));
            && (r.Ok? <==> Countable(spec) && AllNormal(Wrapped(start, Texts(spec), end)))
            && (r.Ok? ==>
                  && Distinct(r.value) && |r.value| == |ns|
                  && forall k :: 0 <= k < |ns| ==> r.value[k] == start + PrintPadded(ns[k], Width(spec.a)) + end)
  {
    hide Distinct, Numbers, PrintPadded, Value, Width, Expansion, Countable, RangePattern, AllDigits, NoneArises,
      AllNormal;
    var part, texts := Part(spec, end), Texts(spec);
    assert [part][1..] == [];
    assert Pattern(start, [part]) == RangePattern(start, spec, end);
    ExpansionIsProduct(start, [part]);
    PartsStep([part]);
    SingleProduct(start, texts, end);
    NoParts([]);
    WrappedDistinct(start, Numbers(Value(spec.a), Value(spec.b)), Width(spec.a), end, Wrapped(start, texts, end));
  }

  lemma {:induction false} SingleProduct(start: string, texts: seq<string>, end: string)
    ensures ProductEach(start, texts, end, []) == Wrapped(start, texts, end)
  {
    if texts != [] {
      var n := |texts| - 1;
      SingleProduct(start, texts[..n], end);
    }
  }

  lemma {:induction false} OpenBraceFound(s: string, i: nat, k: nat)
    requires '}' !in s && i <= k < |s| && s[k] == '{'
    ensures FindFrom(s, i) == Unclosed
    decreases |s| - i
  {
    forall j | 0 <= j < |s| ensures s[j] != '}' {
      assert s[j] in s;
    }
    if s[i] != '{' {
      OpenBraceFound(s, i + 1, k);
    }
  }

  /** The only closing brace of a pattern is its range's: the range is found, and what it leaves behind is refused. */
  lemma OpenBraceFails(start: string, spec: Spec, end: string)
    requires IsSpec(spec) && '{' in start && '}' !in start && '}' !in end
    ensures var pat := RangePattern(start, spec, end); FindFrom(pat, 0).Range? && Expansion(pat).Err?
  {
    hide FindFrom, Texts, IsSpec, Expansion, RangePattern, AllDigits;
    IsSpecMeans(spec);
    var open :| 0 <= open < |start| && start[open] == '{';
    var part, texts := Part(spec, end), Texts(spec);
    SomeTexts(spec);
    OpenBraceFound(start, 0, open);
    forall k | 0 <= k < |texts| ensures FindFrom(start + texts[k] + end, 0) == Unclosed {
      OnlyDigits(texts[k]);
      assert (start + texts[k] + end)[open] == '{';
      OpenBraceFound(start + texts[k] + end, 0, open);
    }
    RangeFound(start, spec, end);
    assert [part][1..] == [];
    assert NoneArises(start, [part]);
    SingleRange(start, spec, end);
    assert Wrapped(start, texts, end)[0] == start + texts[0] + end;
  }

  lemma OnlyDigits(text: string)
    requires AllDigits(text)
    ensures '}' !in text
  {
  }
}
