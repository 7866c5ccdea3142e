/**
 Expansion of host patterns: `{start..end}` ranges anywhere in a string are
 replaced one at a time, leftmost first, by each of their numbers.
 */
module HostPattern {
  import opened Common
  import opened Decimal
  import opened Text

  const I64_MAX: nat := 0x7FFF_FFFF_FFFF_FFFF
  const MAX_HOSTS: nat := 10_000

  datatype ExpandError = Unterminated | NumberTooLarge | TooManyHosts | DuplicateHost

  // ---------- finding a range ----------

  /** The first position of ".." in s, or the length if there is none. */
  function Dots(s: string, i: nat): (p: nat)
    requires i <= |s|
    ensures i <= p <= |s|
    ensures p < |s| ==> p + 1 < |s| && s[p] == '.' && s[p + 1] == '.'
    ensures forall k :: i <= k < p && k + 1 < |s| ==> !(s[k] == '.' && s[k + 1] == '.')
    decreases |s| - i
  {
    if i + 1 >= |s| then |s|
    else if s[i] == '.' && s[i + 1] == '.' then i
    else Dots(s, i + 1)
  }

  /** The text between two braces is a range: digits, two dots, digits. */
  predicate IsRangeInner(inner: string) {
    var d := Dots(inner, 0);
    d < |inner| && d > 0 && d + 2 < |inner| && AllDigits(inner[..d]) && AllDigits(inner[d + 2..])
  }

  /** A brace at lo, the first closing brace after it at hi, and a range in between. */
  predicate RangeAt(s: string, lo: nat, hi: nat) {
    lo < |s| && s[lo] == '{' && hi < |s| && hi == Next(s, '}', lo + 1) && IsRangeInner(s[lo + 1..hi])
  }

  predicate OpenAt(s: string, i: nat) {
    i < |s| && s[i] == '{' && Next(s, '}', i + 1) == |s|
  }

  datatype Found = Range(lo: nat, hi: nat) | NoRange | Unclosed

  function FindFrom(s: string, i: nat): Found
    requires i <= |s|
    decreases |s| - i
  {
    if i == |s| then NoRange
    else if s[i] != '{' then FindFrom(s, i + 1)
    else
      var close := Next(s, '}', i + 1);
      if close == |s| then Unclosed
      else if IsRangeInner(s[i + 1..close]) then Range(i, close)
      else FindFrom(s, i + 1)
  }

  /** No range starts at l. */
  ghost predicate NoRangeAt(s: string, l: nat) {
    forall h: nat :: !RangeAt(s, l, h)
  }

  /** Nothing from an open brace on is a range: there is no closing brace there. */
  lemma NoRangeAfterOpen(s: string, i: nat, l: nat)
    requires OpenAt(s, i) && i <= l
    ensures NoRangeAt(s, l)
  {
    hide IsRangeInner;
  }

  /** The search finds the leftmost range; failing that, it reports an open brace if there is one. */
  lemma {:induction false} FindFromMeans(s: string, i: nat)
    requires i <= |s|
    ensures match FindFrom(s, i)
            case Range(lo, hi) => i <= lo && RangeAt(s, lo, hi) && forall l: nat :: i <= l < lo ==> NoRangeAt(s, l)
            case NoRange => forall l: nat :: i <= l ==> NoRangeAt(s, l) && !OpenAt(s, l)
            case Unclosed => (forall l: nat :: i <= l ==> NoRangeAt(s, l)) && exists k: nat :: i <= k && OpenAt(s, k)
    decreases |s| - i
  {
    hide IsRangeInner, NoRangeAt, RangeAt, OpenAt;
    if i < |s| {
      FindFromMeans(s, i + 1);
      AtBrace(s, i);
      forall l: nat | OpenAt(s, i) && i <= l ensures NoRangeAt(s, l) {
        NoRangeAfterOpen(s, i, l);
      }
    } else {
      forall l: nat | i <= l ensures NoRangeAt(s, l) && !OpenAt(s, l) {
        NothingBeyond(s, l);
      }
    }
  }

  lemma NothingBeyond(s: string, l: nat)
    requires |s| <= l
    ensures NoRangeAt(s, l) && !OpenAt(s, l)
  {
  }

  lemma AtBrace(s: string, i: nat)
    requires i < |s|
    ensures s[i] != '{' ==> NoRangeAt(s, i) && !OpenAt(s, i)
    ensures s[i] == '{' ==> var close := Next(s, '}', i + 1);
                            && (OpenAt(s, i) <==> close == |s|)
                            && (close < |s| && IsRangeInner(s[i + 1..close]) ==> RangeAt(s, i, close))
                            && (close < |s| && !IsRangeInner(s[i + 1..close]) ==> NoRangeAt(s, i))
  {
    hide IsRangeInner;
  }

  method FindRange(s: string) returns (found: Found)
    ensures found == FindFrom(s, 0)
  {
    var i := 0;
    while i < |s|
      invariant i <= |s| && FindFrom(s, i) == FindFrom(s, 0)
    {
      if s[i] != '{' {
        i := i + 1;
        continue;
      }
      var close := Next(s, '}', i + 1);
      if close < |s| {
        if IsRangeInner(s[i + 1..close]) {
          return Range(i, close);
        }
        i := i + 1;
      } else {
        return Unclosed;
      }
    }
    found := NoRange;
  }

  // ---------- substituting it ----------

  /** The number of opening braces: what each substitution reduces. */
  function Braces(s: string): nat {
    if s == "" then 0 else Braces(s[..|s| - 1]) + if s[|s| - 1] == '{' then 1 else 0
  }

  lemma {:induction false} BracesConcat(s: string, t: string)
    ensures Braces(s + t) == Braces(s) + Braces(t)
  {
    if t == "" {
      assert s + t == s;
    } else {
      BracesConcat(s, t[..|t| - 1]);
      assert (s + t)[..|s + t| - 1] == s + t[..|t| - 1];
    }
  }

  lemma {:induction false} NoBraces(s: string)
    requires '{' !in s
    ensures Braces(s) == 0
  {
    if s != "" {
      assert s[|s| - 1] in s;
      NoBraces(s[..|s| - 1]);
    }
  }

  /** From a to b in steps of one, up or down. */
  function Numbers(a: nat, b: nat): (ns: seq<nat>)
    ensures |ns| == (if a <= b then b - a else a - b) + 1
    ensures forall k :: 0 <= k < |ns| ==> ns[k] == if a <= b then a + k else a - k
  {
    if a <= b then seq(b - a + 1, k requires 0 <= k <= b - a => a + k)
    else seq(a - b + 1, k requires 0 <= k <= a - b => a - k)
  }

  datatype Spec = Spec(a: string, b: string)

  function SpecOf(inner: string): (spec: Spec)
    requires IsRangeInner(inner)
    ensures AllDigits(spec.a) && AllDigits(spec.b) && inner == spec.a + ".." + spec.b
    ensures spec.a != "" && spec.b != ""
  {
    var d := Dots(inner, 0);
    assert inner == inner[..d] + ".." + inner[d + 2..];
    Spec(inner[..d], inner[d + 2..])
  }

  /** Numbers are padded to the width of a start token with leading zeros. */
  function Width(a: string): nat {
    if |a| > 1 && a[0] == '0' then |a| else 0
  }

  /** The numbers of a range as they are printed. */
  function Texts(spec: Spec): (texts: seq<string>)
    requires AllDigits(spec.a) && AllDigits(spec.b)
    ensures forall k :: 0 <= k < |texts| ==> AllDigits(texts[k])
    ensures var ns := Numbers(Value(spec.a), Value(spec.b));
            |texts| == |ns| && forall k :: 0 <= k < |ns| ==> texts[k] == PrintPadded(ns[k], Width(spec.a))
  {
    var ns := Numbers(Value(spec.a), Value(spec.b));
    seq(|ns|, k requires 0 <= k < |ns| => PrintPadded(ns[k], Width(spec.a)))
  }

  /** The strings a range stands for, without what surrounds it. */
  function RangeTexts(spec: Spec): (r: Result<seq<string>, ExpandError>)
    requires AllDigits(spec.a) && AllDigits(spec.b)
    ensures r.Ok? ==> forall k :: 0 <= k < |r.value| ==> AllDigits(r.value[k])
  {
    var a, b := Value(spec.a), Value(spec.b);
    if a > I64_MAX || b > I64_MAX then Err(NumberTooLarge)
    else if |Numbers(a, b)| > MAX_HOSTS then Err(TooManyHosts)
    else Ok(Texts(spec))
  }

  function Wrapped(start: string, texts: seq<string>, end: string): (r: seq<string>)
    ensures |r| == |texts| && forall k :: 0 <= k < |r| ==> r[k] == start + texts[k] + end
  {
    seq(|texts|, k requires 0 <= k < |texts| => start + texts[k] + end)
  }

  /** The pattern with its leftmost range replaced by each of its numbers. */
  function Substitutes(pat: string, lo: nat, hi: nat): (r: Result<seq<string>, ExpandError>)
    requires RangeAt(pat, lo, hi)
    ensures r.Ok? ==> forall k :: 0 <= k < |r.value| ==> Braces(r.value[k]) == Braces(pat) - 1
  {
    match RangeTexts(SpecOf(pat[lo + 1..hi]))
    case Err(e) => Err(e)
    case Ok(texts) =>
      assert forall k :: 0 <= k < |texts| ==> Braces(pat[..lo] + texts[k] + pat[hi + 1..]) == Braces(pat) - 1 by {
        forall k | 0 <= k < |texts| ensures Braces(pat[..lo] + texts[k] + pat[hi + 1..]) == Braces(pat) - 1 {
          OneBraceFewer(pat, lo, hi, texts[k]);
        }
      }
      Ok(Wrapped(pat[..lo], texts, pat[hi + 1..]))
  }

  lemma BracesOfRange(start: string, inner: string, end: string)
    requires '{' !in inner
    ensures Braces(start + "{" + inner + "}" + end) == Braces(start) + 1 + Braces(end)
  {
    hide Braces;
    BracesConcat(start + "{" + inner + "}", end);
    BracesConcat(start + "{" + inner, "}");
    BracesConcat(start + "{", inner);
    BracesConcat(start, "{");
    NoBraces(inner);
    NoBraces("}");
    OneBrace();
  }

  lemma OneBrace()
    ensures Braces("{") == 1
  {
    assert "{"[..0] == "";
  }

  /** Replacing a range, nested or not, by digits removes exactly one opening brace. */
  lemma OneBraceFewer(pat: string, lo: nat, hi: nat, text: string)
    requires RangeAt(pat, lo, hi) && AllDigits(text)
    ensures Braces(pat[..lo] + text + pat[hi + 1..]) == Braces(pat) - 1
  {
    hide Braces, IsRangeInner;
    var start, inner, end := pat[..lo], pat[lo + 1..hi], pat[hi + 1..];
    var spec := SpecOf(inner);
    assert pat == start + "{" + inner + "}" + end;
    BracesOfRange(start, inner, end);
    BracesConcat(start + text, end);
    BracesConcat(start, text);
    NoBraces(text);
  }

  // ---------- expansion ----------

  /** The hosts of one pattern. Each recursive call is on a string with fewer opening braces. */
  function Expansion(pat: string): Result<seq<string>, ExpandError>
    decreases Braces(pat), 0, 0
  {
    FindFromMeans(pat, 0);
    match FindFrom(pat, 0)
    case NoRange => Ok([pat])
    case Unclosed => Err(Unterminated)
    case Range(lo, hi) =>
      OneBraceFewer(pat, lo, hi, "");
      match Substitutes(pat, lo, hi)
      case Err(e) => Err(e)
      case Ok(pats) => ExpandEach(pats, Braces(pat) - 1)
  }

  /** The hosts of several patterns one after the other; the first failure is the result. */
  function ExpandEach(pats: seq<string>, bound: nat): Result<seq<string>, ExpandError>
    requires forall k :: 0 <= k < |pats| ==> Braces(pats[k]) <= bound
    decreases bound, 1, |pats|
  {
    if pats == [] then Ok([])
    else
      match ExpandEach(pats[..|pats| - 1], bound)
      case Err(e) => Err(e)
      case Ok(before) =>
        match Expansion(pats[|pats| - 1])
        case Err(e) => Err(e)
        case Ok(last) => Ok(before + last)
  }

  method ExpandPattern(pat: string) returns (r: Result<seq<string>, ExpandError>)
    ensures r == Expansion(pat)
    decreases Braces(pat)
  {
    hide FindFrom, RangeAt, Substitutes, Braces, OpenAt;
    FindFromMeans(pat, 0);
    var found := FindRange(pat);
    match found {
      case NoRange => return Ok([pat]);
      case Unclosed => return Err(Unterminated);
      case Range(lo, hi) =>
        var substitutes := Substitutes(pat, lo, hi);
        if substitutes.Err? {
          return Err(substitutes.error);
        }
        var pats := substitutes.value;
        OneBraceFewer(pat, lo, hi, "");
        ghost var bound := Braces(pat) - 1;
        var out := [];
        for i := 0 to |pats|
          invariant ExpandEach(pats[..i], bound) == Ok(out)
        {
          assert pats[..i + 1][..i] == pats[..i];
          var hosts := ExpandPattern(pats[i]);
          if hosts.Err? {
            EachFails(pats, i + 1, bound);
            return Err(hosts.error);
          }
          out := out + hosts.value;
        }
        assert pats[..|pats|] == pats;
        return Ok(out);
    }
  }

  lemma {:induction false} EachFails(pats: seq<string>, i: nat, bound: nat)
    requires i <= |pats| && forall k :: 0 <= k < |pats| ==> Braces(pats[k]) <= bound
    requires ExpandEach(pats[..i], bound).Err?
    ensures ExpandEach(pats, bound) == ExpandEach(pats[..i], bound)
    decreases |pats|
  {
    if i < |pats| {
      assert pats[..|pats| - 1][..i] == pats[..i];
      EachFails(pats[..|pats| - 1], i, bound);
    } else {
      assert pats[..i] == pats;
    }
  }

  // ---------- what comes out ----------

  predicate Normal(host: string) {
    FindFrom(host, 0).NoRange?
  }

  predicate AllNormal(hosts: seq<string>) {
    forall k :: 0 <= k < |hosts| ==> Normal(hosts[k])
  }

  /** Every host of an expansion has no range left in it. */
  lemma {:induction false} ExpansionIsNormal(pat: string)
    requires Expansion(pat).Ok?
    ensures AllNormal(Expansion(pat).value)
    decreases Braces(pat), 0, 0
  {
    hide FindFrom, RangeAt, Substitutes, Braces, OpenAt, AllNormal;
    FindFromMeans(pat, 0);
    match FindFrom(pat, 0)
    case NoRange => OneNormal(pat);
    case Range(lo, hi) =>
      OneBraceFewer(pat, lo, hi, "");
      EachIsNormal(Substitutes(pat, lo, hi).value, Braces(pat) - 1);
  }

  lemma OneNormal(host: string)
    requires FindFrom(host, 0).NoRange?
    ensures AllNormal([host])
  {
  }

  lemma {:induction false} EachIsNormal(pats: seq<string>, bound: nat)
    requires forall k :: 0 <= k < |pats| ==> Braces(pats[k]) <= bound
    requires ExpandEach(pats, bound).Ok?
    ensures AllNormal(ExpandEach(pats, bound).value)
    decreases bound, 1, |pats|
  {
    if pats != [] {
      EachIsNormal(pats[..|pats| - 1], bound);
      ExpansionIsNormal(pats[|pats| - 1]);
    }
  }

  /** A host without a range is its own expansion. */
  lemma NormalStays(host: string)
    requires Normal(host)
    ensures Expansion(host) == Ok([host])
  {
  }

  lemma {:induction false} EachOfNormal(pats: seq<string>, bound: nat)
    requires forall k :: 0 <= k < |pats| ==> Braces(pats[k]) <= bound
    requires AllNormal(pats)
    ensures ExpandEach(pats, bound) == Ok(pats)
  {
    hide Normal, Braces, Expansion;
    if pats != [] {
      EachOfNormal(pats[..|pats| - 1], bound);
      NormalStays(pats[|pats| - 1]);
      assert pats == pats[..|pats| - 1] + [pats[|pats| - 1]];
    }
  }

  /** The expansions of several items in order, or the first failure. */
  function Expansions(items: seq<string>): Result<seq<string>, ExpandError> {
    if items == [] then Ok([])
    else
      match Expansions(items[..|items| - 1])
      case Err(e) => Err(e)
      case Ok(before) =>
        match Expansion(items[|items| - 1])
        case Err(e) => Err(e)
        case Ok(last) => Ok(before + last)
  }

  lemma {:induction false} ExpansionsPrefix(items: seq<string>, i: nat)
    requires i <= |items| && Expansions(items).Ok?
    ensures Expansions(items[..i]).Ok? && Expansions(items[..i]).value <= Expansions(items).value
  {
    hide Expansion;
    if i < |items| {
      assert items[..|items| - 1][..i] == items[..i];
      ExpansionsPrefix(items[..|items| - 1], i);
    } else {
      assert items[..i] == items;
    }
  }

  lemma DuplicateStays(all: seq<string>, before: seq<string>, hosts: seq<string>, j: nat)
    requires before + hosts <= all && j < |hosts| && hosts[j] in before + hosts[..j]
    ensures !Distinct(all)
  {
    var out, n := before + hosts[..j], |before| + j;
    var k :| 0 <= k < n && out[k] == hosts[j];
    assert out == (before + hosts)[..n];
    assert all[k] == (before + hosts)[k] == out[k];
    assert all[n] == (before + hosts)[n] == hosts[j];
  }

  /** Succeeds exactly when every item expands and no host comes twice, and then lists them in order. */
  method ExpandHostlist(items: seq<string>) returns (r: Result<seq<string>, ExpandError>)
    ensures r.Ok? <==> Expansions(items).Ok? && Distinct(Expansions(items).value)
    ensures r.Ok? ==> r.value == Expansions(items).value
  {
    hide Expansion, Distinct;
    var out: seq<string>, seen: set<string> := [], {};
    NoneDistinct();
    for i := 0 to |items|
      invariant Expansions(items[..i]) == Ok(out)
      invariant Distinct(out) && forall h :: h in seen <==> h in out
    {
      assert items[..i + 1][..i] == items[..i];
      ghost var before := out;
      var hosts := ExpandPattern(items[i]);
      if hosts.Err? {
        if Expansions(items).Ok? {
          ExpansionsPrefix(items, i + 1);
        }
        return Err(hosts.error);
      }
      for j := 0 to |hosts.value|
        invariant out == before + hosts.value[..j]
        invariant Distinct(out) && forall h :: h in seen <==> h in out
      {
        var h := hosts.value[j];
        if h in seen {
          if Expansions(items).Ok? {
            ExpansionsPrefix(items, i + 1);
            DuplicateStays(Expansions(items).value, before, hosts.value, j);
          }
          return Err(DuplicateHost);
        }
        StillDistinct(out, h);
        seen := seen + {h};
        out := out + [h];
      }
      assert out == before + hosts.value;
    }
    assert items[..|items|] == items;
    r := Ok(out);
  }

  lemma NoneDistinct()
    ensures Distinct<string>([])
  {
  }

  lemma StillDistinct(out: seq<string>, h: string)
    requires Distinct(out) && h !in out
    ensures Distinct(out + [h])
  {
  }

  lemma {:induction false} ExpansionsAreNormal(items: seq<string>)
    requires Expansions(items).Ok?
    ensures AllNormal(Expansions(items).value)
  {
    hide Expansion, Normal;
    if items != [] {
      ExpansionsAreNormal(items[..|items| - 1]);
      ExpansionIsNormal(items[|items| - 1]);
    }
  }

  lemma {:induction false} ExpansionsOfNormal(hosts: seq<string>)
    requires AllNormal(hosts)
    ensures Expansions(hosts) == Ok(hosts)
  {
    hide Normal, Expansion;
    if hosts != [] {
      ExpansionsOfNormal(hosts[..|hosts| - 1]);
      NormalStays(hosts[|hosts| - 1]);
      assert hosts == hosts[..|hosts| - 1] + [hosts[|hosts| - 1]];
    }
  }

  /** Expanding an expanded list changes nothing. */
  lemma ExpansionIsStable(items: seq<string>)
    requires Expansions(items).Ok?
    ensures Expansions(Expansions(items).value) == Expansions(items)
  {
    ExpansionsAreNormal(items);
    ExpansionsOfNormal(Expansions(items).value);
  }
}
