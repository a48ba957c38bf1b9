/** The scanning half of `Editor/Finder/ScriptFinder.cs`: how an event name
    is read off the first argument of an `EventManager.Trigger(...)` or
    `EventManager.Subscribe(...)` call, how the enclosing class is found,
    and how the window's three static collections are filled. The regular
    expression that finds the calls and the reading of files are inputs:
    each call site arrives as its first argument and its position. */
module ScriptFinder {
  import opened Values

  /** `char.IsWhiteSpace`, which is also what `\s` matches in a .NET
      regular expression: the control characters U+0009 to U+000D and
      U+0085, and the space, line and paragraph separators of Unicode. */
  predicate IsWhiteSpace(c: char) {
    || ('\t' <= c <= '\r')
    || c == ' ' || c == '\U{85}' || c == '\U{A0}' || c == '\U{1680}'
    || ('\U{2000}' <= c <= '\U{200A}')
    || c == '\U{2028}' || c == '\U{2029}' || c == '\U{202F}' || c == '\U{205F}' || c == '\U{3000}'
  }

  predicate StartsWith(s: string, prefix: string) {
    |prefix| <= |s| && s[..|prefix|] == prefix
  }

  predicate EndsWith(s: string, suffix: string) {
    |suffix| <= |s| && s[|s| - |suffix|..] == suffix
  }

  /** `r` occurs in `s` as a contiguous piece. */
  ghost predicate Within(r: string, s: string) {
    exists k :: OccursAt(s, r, k)
  }

  /** `s.TrimStart(c)`. */
  function TrimStart(s: string, c: char): (r: string)
    ensures |r| <= |s| && r == s[|s| - |r|..]
    ensures r == [] || r[0] != c
  {
    if s != [] && s[0] == c then TrimStart(s[1..], c) else s
  }

  /** `s.TrimEnd(c)`. */
  function TrimEnd(s: string, c: char): (r: string)
    ensures |r| <= |s| && r == s[..|r|]
    ensures r == [] || r[|r| - 1] != c
  {
    if s != [] && s[|s| - 1] == c then TrimEnd(s[..|s| - 1], c) else s
  }

  /** Leading white space removed. */
  function TrimWhiteStart(s: string): (r: string)
    ensures |r| <= |s| && r == s[|s| - |r|..]
    ensures r == [] || !IsWhiteSpace(r[0])
  {
    if s != [] && IsWhiteSpace(s[0]) then TrimWhiteStart(s[1..]) else s
  }

  /** Trailing white space removed. */
  function TrimWhiteEnd(s: string): (r: string)
    ensures |r| <= |s| && r == s[..|r|]
    ensures r == [] || !IsWhiteSpace(r[|r| - 1])
  {
    if s != [] && IsWhiteSpace(s[|s| - 1]) then TrimWhiteEnd(s[..|s| - 1]) else s
  }

  /** `s.Trim()`: leading and trailing white space removed. */
  function Trim(s: string): (r: string)
    ensures r == [] || (!IsWhiteSpace(r[0]) && !IsWhiteSpace(r[|r| - 1]))
  {
    var a := TrimWhiteStart(s);
    var r := TrimWhiteEnd(a);
    assert r != [] ==> r[0] == a[0];
    r
  }

  /** What `Trim` keeps is a piece of its input. */
  lemma TrimWithin(s: string)
    ensures Within(Trim(s), s)
  {
    var a := TrimWhiteStart(s);
    var r := TrimWhiteEnd(a);
    assert OccursAt(s, r, |s| - |a|) by {
      assert r == s[|s| - |a|..|s| - |a| + |r|];
    }
  }

  /** A string with no white space at either end is its own `Trim`. */
  lemma TrimmedAlready(s: string)
    requires s == [] || (!IsWhiteSpace(s[0]) && !IsWhiteSpace(s[|s| - 1]))
    ensures Trim(s) == s
  {
    assert TrimWhiteStart(s) == s;
    assert TrimWhiteEnd(s) == s;
  }

  /** `pat` occurs in `s` at index `k`. */
  predicate OccursAt(s: string, pat: string, k: int) {
    0 <= k && k + |pat| <= |s| && s[k..k + |pat|] == pat
  }

  /** `s.IndexOf(pat)` from index `from` on: the first occurrence, or -1. */
  function IndexOfFrom(s: string, pat: string, from: nat): (r: int)
    ensures r == -1 || (from <= r && OccursAt(s, pat, r))
    decreases |s| - from
  {
    if from + |pat| > |s| then -1
    else if s[from..from + |pat|] == pat then from
    else IndexOfFrom(s, pat, from + 1)
  }

  /** No occurrence lies between `from` and the one `IndexOfFrom` reports. */
  lemma {:induction false} IndexOfFromFirst(s: string, pat: string, from: nat)
    ensures forall k :: from <= k && (IndexOfFrom(s, pat, from) == -1 || k < IndexOfFrom(s, pat, from)) ==>
      !OccursAt(s, pat, k)
    decreases |s| - from
  {
    if from + |pat| <= |s| && s[from..from + |pat|] != pat {
      IndexOfFromFirst(s, pat, from + 1);
    }
  }

  function IndexOf(s: string, pat: string): (r: int)
    ensures r == -1 || OccursAt(s, pat, r)
  {
    IndexOfFrom(s, pat, 0)
  }

  /** `IndexOf` finds the first occurrence, and -1 means there is none. */
  lemma IndexOfFirst(s: string, pat: string)
    ensures forall k :: 0 <= k && (IndexOf(s, pat) == -1 || k < IndexOf(s, pat)) ==> !OccursAt(s, pat, k)
  {
    IndexOfFromFirst(s, pat, 0);
  }

  /** The name `ExtractEventName` reads off the text of an interpolated
      string, its closing quotes removed: the part before the first `.{`
      when that is not at the start, otherwise `AfterBrace`. */
  function InterpolatedName(inner: string): string {
    var dotBeforeBrace := IndexOf(inner, ".{");
    if dotBeforeBrace > 0 then inner[..dotBeforeBrace] else AfterBrace(inner)
  }

  /** The part after the first `}` with leading dots and surrounding white
      space trimmed, when something follows the `}`; otherwise the whole text. */
  function AfterBrace(inner: string): string {
    var closingBrace := IndexOf(inner, "}");
    if closingBrace >= 0 && closingBrace + 1 < |inner| then TrimmedFrom(inner, closingBrace + 1)
    else inner
  }

  /** The text from `from` on, leading dots and surrounding white space removed. */
  function TrimmedFrom(s: string, from: nat): string
    requires from <= |s|
  {
    Trim(TrimStart(s[from..], '.'))
  }

  /** `ExtractEventName`: the event name a call's first argument spells.
      A string literal gives its contents; an interpolated string gives the
      part before the first `.{`, or else the part after the first `}` with
      dots and white space trimmed, or else its whole text; anything else is
      taken as it is. The lone argument `"` makes `Substring` throw. */
  function ExtractEventName(arg: string): (r: Option<string>)
    ensures r.None? <==> arg == "\""
  {
    if StartsWith(arg, "\"") && EndsWith(arg, "\"") then
      if |arg| < 2 then None else Some(arg[1..|arg| - 1])
    else if StartsWith(arg, "$\"") then
      Some(InterpolatedName(TrimEnd(arg[2..], '"')))
    else Some(arg)
  }

  lemma WithinTrans(a: string, b: string, c: string)
    requires Within(a, b) && Within(b, c)
    ensures Within(a, c)
  {
    var i :| OccursAt(b, a, i);
    var i' :| OccursAt(c, b, i');
    forall k | 0 <= k < |a| ensures a[k] == c[i' + i + k] {
      assert a[k] == b[i + k] == c[i' + i + k];
    }
    assert OccursAt(c, a, i' + i);
  }

  /** A slice is a piece of what it was cut from. */
  lemma SliceWithin(s: string, i: nat, j: nat)
    requires i <= j <= |s|
    ensures Within(s[i..j], s)
  {
    assert OccursAt(s, s[i..j], i);
  }

  /** When something follows the first `}`, `AfterBrace` is the trimmed tail. */
  lemma AfterBraceAt(inner: string)
    requires IndexOf(inner, "}") >= 0 && IndexOf(inner, "}") + 1 < |inner|
    ensures AfterBrace(inner) == TrimmedFrom(inner, IndexOf(inner, "}") + 1)
  {
  }

  /** That tail is a piece of the text. */
  lemma AfterBraceTail(inner: string)
    requires IndexOf(inner, "}") >= 0 && IndexOf(inner, "}") + 1 < |inner|
    ensures Within(AfterBrace(inner), inner)
  {
    AfterBraceAt(inner);
    AfterBraceWithin(inner, IndexOf(inner, "}") + 1);
  }

  /** Otherwise `AfterBrace` is the whole text. */
  lemma AfterBraceWhole(inner: string)
    requires !(IndexOf(inner, "}") >= 0 && IndexOf(inner, "}") + 1 < |inner|)
    ensures AfterBrace(inner) == inner
  {
  }

  lemma AfterBraceIsWithin(inner: string)
    ensures Within(AfterBrace(inner), inner)
  {
    if IndexOf(inner, "}") >= 0 && IndexOf(inner, "}") + 1 < |inner| {
      AfterBraceTail(inner);
    } else {
      AfterBraceWhole(inner);
      assert OccursAt(inner, inner, 0);
    }
  }

  lemma InterpolatedNameWithin(inner: string)
    ensures Within(InterpolatedName(inner), inner)
  {
    var d := IndexOf(inner, ".{");
    if d > 0 {
      SliceWithin(inner, 0, d);
      assert inner[0..d] == inner[..d];
    } else {
      AfterBraceIsWithin(inner);
    }
  }

  /** A suffix is a piece of what it ends. */
  lemma SuffixWithin(s: string, t: string)
    requires |t| <= |s| && t == s[|s| - |t|..]
    ensures Within(t, s)
  {
    assert s[|s| - |t|..] == s[|s| - |t|..|s| - |t| + |t|];
    assert OccursAt(s, t, |s| - |t|);
  }

  /** Dropping leading dots from a tail of `s` leaves a tail of `s`. */
  lemma TrimStartSuffix(s: string, from: nat)
    requires from <= |s|
    ensures var t := TrimStart(s[from..], '.'); |t| <= |s| && t == s[|s| - |t|..]
  {
    var after := s[from..];
    var t := TrimStart(after, '.');
    assert after[|after| - |t|..] == s[|s| - |t|..];
  }

  /** Trimming the dots and then the white space off a tail of `s` leaves a
      piece of `s`. */
  lemma AfterBraceWithin(s: string, from: nat)
    requires from <= |s|
    ensures Within(TrimmedFrom(s, from), s)
  {
    var trimmed := TrimStart(s[from..], '.');
    TrimStartSuffix(s, from);
    SuffixWithin(s, trimmed);
    TrimWithin(trimmed);
    WithinTrans(Trim(trimmed), trimmed, s);
  }

  /** The name extracted from an interpolated string is a piece of it. */
  lemma InterpolatedWithin(arg: string)
    requires !(StartsWith(arg, "\"") && EndsWith(arg, "\"")) && StartsWith(arg, "$\"")
    ensures Within(ExtractEventName(arg).value, arg)
  {
    var inner := TrimEnd(arg[2..], '"');
    assert OccursAt(arg, inner, 2) by {
      assert inner == arg[2..2 + |inner|];
    }
    var r := InterpolatedName(inner);
    assert ExtractEventName(arg) == Some(r);
    InterpolatedNameWithin(inner);
    WithinTrans(r, inner, arg);
  }

  /** The extracted name is always a piece of the argument, so never longer. */
  lemma ExtractedWithinArgument(arg: string)
    requires ExtractEventName(arg).Some?
    ensures Within(ExtractEventName(arg).value, arg)
    ensures |ExtractEventName(arg).value| <= |arg|
  {
    if StartsWith(arg, "\"") && EndsWith(arg, "\"") {
      assert ExtractEventName(arg).value == arg[1..|arg| - 1];
      SliceWithin(arg, 1, |arg| - 1);
    } else if StartsWith(arg, "$\"") {
      InterpolatedWithin(arg);
    } else {
      assert OccursAt(arg, arg, 0);
    }
    var k :| OccursAt(arg, ExtractEventName(arg).value, k);
  }

  /** A two-character pattern whose second character appears nowhere
      after the first position of `s` does not occur in `s`. */
  lemma SecondCharAbsent(s: string, pat: string)
    requires |pat| == 2 && (s == [] || pat[1] !in s[1..])
    ensures forall k :: 0 <= k ==> !OccursAt(s, pat, k)
  {
    forall k | 0 <= k ensures !OccursAt(s, pat, k) {
      if k + 2 <= |s| {
        assert s[k..k + 2][1] == s[k + 1] == s[1..][k];
      }
    }
  }

  /** `s.IndexOf(c)` is `b` when `s[b]` is the first `c`. */
  lemma FirstOccurrence(s: string, c: char, b: nat)
    requires b < |s| && s[b] == c && c !in s[..b]
    ensures IndexOf(s, [c]) == b
  {
    IndexOfFirst(s, [c]);
    assert OccursAt(s, [c], b);
    forall k | 0 <= k < b ensures !OccursAt(s, [c], k) {
      assert s[k..k + 1][0] == s[k] == s[..b][k];
    }
  }

  /** A string literal round-trips: `"name"` gives `name`. */
  lemma QuotedName(name: string)
    ensures ExtractEventName("\"" + name + "\"") == Some(name)
  {
    var arg := "\"" + name + "\"";
    assert StartsWith(arg, "\"") && EndsWith(arg, "\"");
    assert arg[1..|arg| - 1] == name;
  }

  /** `{expr}.name` has no `.{` when neither part holds a `{`. */
  lemma IdScopeNoDotBrace(expr: string, name: string)
    requires '{' !in expr && '{' !in name
    ensures IndexOf("{" + expr + "}." + name, ".{") == -1
  {
    var inner := "{" + expr + "}." + name;
    assert inner[1..] == expr + "}." + name;
    SecondCharAbsent(inner, ".{");
  }

  /** The first `}` of `{expr}.name` closes the scope expression. */
  lemma IdScopeBrace(expr: string, name: string)
    requires '}' !in expr
    ensures IndexOf("{" + expr + "}." + name, "}") == 1 + |expr|
  {
    var inner := "{" + expr + "}." + name;
    assert inner[..1 + |expr|] == "{" + expr;
    FirstOccurrence(inner, '}', 1 + |expr|);
  }

  /** `{expr}.Name` gives `Name`. */
  lemma IdScopeInner(expr: string, name: string)
    requires '{' !in expr && '}' !in expr && '{' !in name
    requires name != [] && name[0] != '.'
    requires !IsWhiteSpace(name[0]) && !IsWhiteSpace(name[|name| - 1])
    ensures InterpolatedName("{" + expr + "}." + name) == name
  {
    var inner := "{" + expr + "}." + name;
    var b := 1 + |expr|;
    IdScopeNoDotBrace(expr, name);
    IdScopeBrace(expr, name);
    var after := inner[b + 1..];
    assert after == "." + name;
    assert TrimStart(after, '.') == name by {
      assert after[1..] == name;
    }
    TrimmedAlready(name);
    AfterBraceAt(inner);
  }

  /** An id-scoped call `$"{expr}.Name"` is reported under the bare `Name`. */
  lemma InterpolatedIdScope(expr: string, name: string)
    requires '{' !in expr && '}' !in expr && '{' !in name
    requires name != [] && name[0] != '.' && name[|name| - 1] != '"'
    requires !IsWhiteSpace(name[0]) && !IsWhiteSpace(name[|name| - 1])
    ensures ExtractEventName("$\"{" + expr + "}." + name + "\"") == Some(name)
  {
    var arg := "$\"{" + expr + "}." + name + "\"";
    assert arg[0] == '$' && arg[..2] == "$\"";
    var inner := "{" + expr + "}." + name;
    assert arg[2..] == inner + "\"";
    assert TrimEnd(arg[2..], '"') == inner;
    IdScopeInner(expr, name);
  }

  /** A call `$"Prefix.{expr}"` is reported under `Prefix`. */
  lemma InterpolatedPrefix(prefix: string, expr: string)
    requires prefix != [] && '{' !in prefix
    ensures ExtractEventName("$\"" + prefix + ".{" + expr + "}\"") == Some(prefix)
  {
    var arg := "$\"" + prefix + ".{" + expr + "}\"";
    assert arg[0] == '$' && arg[..2] == "$\"";
    var inner := prefix + ".{" + expr + "}";
    assert arg[2..] == inner + "\"";
    assert TrimEnd(arg[2..], '"') == inner;
    assert OccursAt(inner, ".{", |prefix|);
    forall k | 0 <= k < |prefix| ensures !OccursAt(inner, ".{", k) {
      assert inner[k..k + 2][1] == inner[k + 1];
      if k + 1 < |prefix| {
        assert inner[k + 1] == prefix[k + 1];
      } else {
        assert inner[k + 1] == '.';
      }
    }
    IndexOfFirst(inner, ".{");
    assert IndexOf(inner, ".{") == |prefix|;
    assert inner[..|prefix|] == prefix;
  }

  predicate IsIdentStart(c: char) {
    ('A' <= c <= 'Z') || ('a' <= c <= 'z') || c == '_'
  }

  predicate IsIdentChar(c: char) {
    IsIdentStart(c) || ('0' <= c <= '9')
  }

  /** How many characters from `p` on satisfy `IsWhiteSpace` (`\s+` is greedy). */
  function WhiteRun(s: string, p: nat): (n: nat)
    ensures p + n <= |s| || (p >= |s| && n == 0)
    ensures forall k :: p <= k < p + n ==> IsWhiteSpace(s[k])
    ensures p + n < |s| ==> !IsWhiteSpace(s[p + n])
    decreases |s| - p
  {
    if p < |s| && IsWhiteSpace(s[p]) then 1 + WhiteRun(s, p + 1) else 0
  }

  /** How many identifier characters from `p` on (`[A-Za-z0-9_]*` is greedy). */
  function IdentRun(s: string, p: nat): (n: nat)
    ensures p + n <= |s| || (p >= |s| && n == 0)
    ensures forall k :: p <= k < p + n ==> IsIdentChar(s[k])
    ensures p + n < |s| ==> !IsIdentChar(s[p + n])
    decreases |s| - p
  {
    if p < |s| && IsIdentChar(s[p]) then 1 + IdentRun(s, p + 1) else 0
  }

  datatype ClassMatch = ClassMatch(name: string, end: nat)

  predicate IsIdentifier(s: string) {
    s != [] && IsIdentStart(s[0]) && forall k :: 0 <= k < |s| ==> IsIdentChar(s[k])
  }

  /** A match of `class\s+([A-Za-z_][A-Za-z0-9_]*)` starting at `p`: the
      captured identifier and where the match ends. */
  function MatchAt(s: string, p: nat): (r: Option<ClassMatch>)
    ensures r.Some? ==> p < r.value.end <= |s| && IsIdentifier(r.value.name)
  {
    if p + 5 <= |s| && s[p..p + 5] == "class" then
      var w := WhiteRun(s, p + 5);
      var start := p + 5 + w;
      if w > 0 && start < |s| && IsIdentStart(s[start]) then
        var n := IdentRun(s, start);
        Some(ClassMatch(s[start..start + n], start + n))
      else None
    else None
  }

  /** `Regex.Matches` scans left to right and resumes after each match:
      the name captured by the last match found from `p` on, or `last`.
      Once a match is found some class is reported, and a reported class
      other than `last` is an identifier. */
  function LastClass(s: string, p: nat, last: Option<string>): (r: Option<string>)
    ensures last.Some? ==> r.Some?
    ensures r.Some? && r != last ==> IsIdentifier(r.value)
    decreases |s| - p
  {
    if p >= |s| then last
    else
      match MatchAt(s, p)
      case Some(m) => LastClass(s, m.end, Some(m.name))
      case None => LastClass(s, p + 1, last)
  }

  const UnknownClass: string := "<UnknownClass>"

  /** No match of the class pattern starts at `p` or later. */
  predicate NoMatchFrom(s: string, p: nat) {
    forall q :: p <= q < |s| ==> MatchAt(s, q).None?
  }

  lemma NoMatchStep(s: string, p: nat)
    requires p < |s| && MatchAt(s, p).None? && NoMatchFrom(s, p + 1)
    ensures NoMatchFrom(s, p)
  {
  }

  lemma {:induction false} LastClassNone(s: string, p: nat)
    ensures LastClass(s, p, None).None? <==> NoMatchFrom(s, p)
    decreases |s| - p
  {
    if p < |s| {
      match MatchAt(s, p)
      case Some(m) =>
      case None =>
        LastClassNone(s, p + 1);
        if NoMatchFrom(s, p + 1) {
          NoMatchStep(s, p);
        }
    }
  }

  /** No match of the class pattern starts in `[p, q)`. */
  predicate NoMatchBetween(s: string, p: nat, q: nat) {
    forall k :: p <= k < q ==> MatchAt(s, k).None?
  }

  /** `qs` lists the starts of the matches `Regex.Matches` finds in `s` from
      `p` on: each is the first position at or after the end of the previous
      match (or `p`) where a match starts, and no match starts after the
      last one's end. */
  ghost predicate MatchChain(s: string, p: nat, qs: seq<nat>)
    decreases |qs|
  {
    if qs == [] then NoMatchFrom(s, p)
    else
      && p <= qs[0] < |s|
      && MatchAt(s, qs[0]).Some?
      && NoMatchBetween(s, p, qs[0])
      && MatchChain(s, MatchAt(s, qs[0]).value.end, qs[1..])
  }

  /** The last match of a non-empty chain captures `name`. */
  ghost predicate LastOfChain(s: string, qs: seq<nat>, name: string) {
    && qs != []
    && qs[|qs| - 1] < |s|
    && MatchAt(s, qs[|qs| - 1]).Some?
    && MatchAt(s, qs[|qs| - 1]).value.name == name
  }

  /** `LastClass` reports the name captured by the last match of the chain
      from `p`, or `last` when the chain is empty. */
  lemma {:induction false} LastClassChain(s: string, p: nat, last: Option<string>, qs: seq<nat>)
    requires MatchChain(s, p, qs)
    ensures qs == [] ==> LastClass(s, p, last) == last
    ensures qs != [] ==> LastClass(s, p, last).Some? && LastOfChain(s, qs, LastClass(s, p, last).value)
    decreases |s| - p
  {
    if p < |s| {
      match MatchAt(s, p)
      case Some(m) =>
        assert qs != [] && qs[0] == p;
        LastClassChain(s, m.end, Some(m.name), qs[1..]);
        if qs[1..] != [] {
          assert qs[1..][|qs[1..]| - 1] == qs[|qs| - 1];
        }
      case None =>
        if qs != [] {
          assert NoMatchBetween(s, p + 1, qs[0]);
        }
        LastClassChain(s, p + 1, last, qs);
    }
  }

  /** `Regex.Matches` always yields a chain: the scan from `p` exists. */
  lemma {:induction false} MatchChainExists(s: string, p: nat)
    ensures exists qs :: MatchChain(s, p, qs)
    decreases |s| - p
  {
    if p >= |s| {
      assert MatchChain(s, p, []);
    } else {
      match MatchAt(s, p)
      case Some(m) =>
        MatchChainExists(s, m.end);
        var rest :| MatchChain(s, m.end, rest);
        assert ([p] + rest)[1..] == rest;
        assert MatchChain(s, p, [p] + rest);
      case None =>
        MatchChainExists(s, p + 1);
        var qs :| MatchChain(s, p + 1, qs);
        if qs != [] {
          assert NoMatchBetween(s, p, qs[0]);
        }
        assert MatchChain(s, p, qs);
    }
  }

  /** `FindClassName`: `<UnknownClass>` exactly when no match starts before
      the position; otherwise the class captured by the last of the matches
      `Regex.Matches` finds left to right, each search resuming at the end
      of the previous match (so a `class` that starts inside an earlier
      match is never one of them). */
  function FindClassName(text: string, position: nat): (r: string)
    requires position <= |text|
    ensures r == UnknownClass <==> NoMatchFrom(text[..position], 0)
    ensures forall qs :: MatchChain(text[..position], 0, qs) ==>
      if qs == [] then r == UnknownClass else LastOfChain(text[..position], qs, r)
  {
    var before := text[..position];
    LastClassNone(before, 0);
    LastClassChains(before);
    match LastClass(before, 0, None)
    case Some(name) =>
      assert !IsIdentStart('<');
      name
    case None => UnknownClass
  }

  /** `LastClassChain` for every chain from the start of `s`. */
  lemma LastClassChains(s: string)
    ensures forall qs :: MatchChain(s, 0, qs) ==>
      if qs == [] then LastClass(s, 0, None) == None
      else LastClass(s, 0, None).Some? && LastOfChain(s, qs, LastClass(s, 0, None).value)
  {
    forall qs | MatchChain(s, 0, qs)
      ensures if qs == [] then LastClass(s, 0, None) == None
              else LastClass(s, 0, None).Some? && LastOfChain(s, qs, LastClass(s, 0, None).value)
    {
      LastClassChain(s, 0, None, qs);
    }
  }

  /** A run of `n` white-space characters ended by the text's end or by
      another character is what `WhiteRun` measures. */
  lemma {:induction false} WhiteRunIs(s: string, p: nat, n: nat)
    requires p + n <= |s|
    requires forall k :: p <= k < p + n ==> IsWhiteSpace(s[k])
    requires p + n == |s| || !IsWhiteSpace(s[p + n])
    ensures WhiteRun(s, p) == n
    decreases n
  {
    if n > 0 {
      WhiteRunIs(s, p + 1, n - 1);
    }
  }

  /** The same for `IdentRun`. */
  lemma {:induction false} IdentRunIs(s: string, p: nat, n: nat)
    requires p + n <= |s|
    requires forall k :: p <= k < p + n ==> IsIdentChar(s[k])
    requires p + n == |s| || !IsIdentChar(s[p + n])
    ensures IdentRun(s, p) == n
    decreases n
  {
    if n > 0 {
      IdentRunIs(s, p + 1, n - 1);
    }
  }

  /** In `class Myclass Foo` a match starts at 0 and captures `Myclass`. */
  lemma FirstMatchOfExample(s: string)
    requires s == "class Myclass Foo"
    ensures MatchAt(s, 0) == Some(ClassMatch("Myclass", 13))
  {
    assert s[0..5] == "class";
    WhiteRunIs(s, 5, 1);
    IdentRunIs(s, 6, 7);
    assert s[6..13] == "Myclass";
  }

  /** Another match starts at 8, inside the first, and captures `Foo`. */
  lemma InnerMatchOfExample(s: string)
    requires s == "class Myclass Foo"
    ensures MatchAt(s, 8) == Some(ClassMatch("Foo", 17))
  {
    assert s[8..13] == "class";
    WhiteRunIs(s, 13, 1);
    IdentRunIs(s, 14, 3);
    assert s[14..17] == "Foo";
  }

  /** The match at 8 starts inside the first match, so `Regex.Matches`
      never tries it, and the name is the first one's. */
  lemma OverlappingMatchSkipped(s: string)
    requires s == "class Myclass Foo"
    ensures MatchAt(s, 8).Some? && MatchAt(s, 8).value.name == "Foo"
    ensures FindClassName(s, |s|) == "Myclass"
  {
    FirstMatchOfExample(s);
    InnerMatchOfExample(s);
    assert s[..|s|] == s;
    assert NoMatchFrom(s, 13);
    var qs: seq<nat> := [0];
    assert MatchChain(s, 13, qs[1..]);
    assert MatchChain(s, 0, qs);
    assert LastOfChain(s[..|s|], qs, FindClassName(s, |s|));
  }

  /** One match of the trigger or subscribe pattern: its first argument,
      already split off and trimmed, and where in the file the match starts. */
  datatype CallSite = CallSite(firstArg: string, index: nat)

  /** What a call site contributes to the window's collections. */
  datatype Entry = Entry(isTrigger: bool, eventName: string, className: string)

  /** The entries of a run of call sites, up to the first whose argument
      makes `ExtractEventName` throw, and whether one did. */
  datatype Scan = Scan(entries: seq<Entry>, failed: bool)

  /** A scan followed by another; an exception stops everything after it. */
  function AndThen(a: Scan, b: Scan): Scan {
    if a.failed then a else Scan(a.entries + b.entries, b.failed)
  }

  /** Prepending the entries `done` of a clean prefix to a scan that
      continues with `a` and then `b`. */
  lemma AndThenShift(done: seq<Entry>, a: Scan, b: Scan)
    ensures a.failed ==> AndThen(Scan(done, false), AndThen(a, b)) == Scan(done + a.entries, true)
    ensures !a.failed ==> AndThen(Scan(done, false), AndThen(a, b)) == AndThen(Scan(done + a.entries, false), b)
  {
    if !a.failed {
      assert done + (a.entries + b.entries) == done + a.entries + b.entries;
    }
  }

  predicate SitesIn(text: string, sites: seq<CallSite>) {
    forall i :: 0 <= i < |sites| ==> sites[i].index <= |text|
  }

  function SiteScan(text: string, sites: seq<CallSite>, isTrigger: bool): Scan
    requires SitesIn(text, sites)
  {
    if sites == [] then Scan([], false)
    else
      match ExtractEventName(sites[0].firstArg)
      case None => Scan([], true)
      case Some(eventName) =>
        var e := Entry(isTrigger, eventName, FindClassName(text, sites[0].index));
        AndThen(Scan([e], false), SiteScan(text, sites[1..], isTrigger))
  }

  /** The call sites before `i` produced the entries `done` without an
      exception. */
  predicate SiteProgress(text: string, sites: seq<CallSite>, i: nat, done: seq<Entry>, isTrigger: bool)
    requires SitesIn(text, sites)
  {
    i <= |sites| && AndThen(Scan(done, false), SiteScan(text, sites[i..], isTrigger)) == SiteScan(text, sites, isTrigger)
  }

  lemma SiteStep(text: string, sites: seq<CallSite>, i: nat, done: seq<Entry>, isTrigger: bool)
    requires SitesIn(text, sites) && i < |sites| && SiteProgress(text, sites, i, done, isTrigger)
    ensures ExtractEventName(sites[i].firstArg).None? ==> SiteScan(text, sites, isTrigger) == Scan(done, true)
    ensures ExtractEventName(sites[i].firstArg).Some? ==>
      SiteProgress(text, sites, i + 1, done + [Entry(isTrigger, ExtractEventName(sites[i].firstArg).value,
                                                     FindClassName(text, sites[i].index))], isTrigger)
  {
    assert sites[i..][0] == sites[i] && sites[i..][1..] == sites[i + 1..];
    if ExtractEventName(sites[i].firstArg).None? {
      assert done + [] == done;
    } else {
      var e := Entry(isTrigger, ExtractEventName(sites[i].firstArg).value, FindClassName(text, sites[i].index));
      var rest := SiteScan(text, sites[i + 1..], isTrigger);
      assert SiteScan(text, sites[i..], isTrigger) == AndThen(Scan([e], false), rest);
      AndThenShift(done, Scan([e], false), rest);
    }
  }

  /** A source file as the scan sees it: its text and the matches of the
      trigger and the subscribe patterns, in order. */
  datatype SourceFile = SourceFile(text: string, triggerSites: seq<CallSite>, subscribeSites: seq<CallSite>)

  predicate Wellformed(f: SourceFile) {
    SitesIn(f.text, f.triggerSites) && SitesIn(f.text, f.subscribeSites)
  }

  /** A file whose matches all lie within its text, as regex matches do. */
  type ScannedFile = f: SourceFile | Wellformed(f) witness SourceFile("", [], [])

  /** One file: the trigger matches first, then the subscribe matches. */
  function FileScan(f: SourceFile): Scan
    requires Wellformed(f)
  {
    AndThen(SiteScan(f.text, f.triggerSites, true), SiteScan(f.text, f.subscribeSites, false))
  }

  function FilesScan(files: seq<ScannedFile>): Scan
  {
    if files == [] then Scan([], false) else AndThen(FileScan(files[0]), FilesScan(files[1..]))
  }

  /** The files before `i` produced the entries `done` without an exception. */
  predicate FilesProgress(files: seq<ScannedFile>, i: nat, done: seq<Entry>)
  {
    i <= |files| && AndThen(Scan(done, false), FilesScan(files[i..])) == FilesScan(files)
  }

  lemma FileStep(files: seq<ScannedFile>, i: nat, done: seq<Entry>)
    requires i < |files| && FilesProgress(files, i, done)
    ensures FileScan(files[i]).failed ==> FilesScan(files) == Scan(done + FileScan(files[i]).entries, true)
    ensures !FileScan(files[i]).failed ==> FilesProgress(files, i + 1, done + FileScan(files[i]).entries)
  {
    var tail := files[i..];
    assert tail[0] == files[i] && tail[1..] == files[i + 1..];
    var fs := FileScan(files[i]);
    var rest := FilesScan(files[i + 1..]);
    assert FilesScan(tail) == AndThen(fs, rest);
    AndThenShift(done, fs, rest);
  }

  /** `if (!_results.Contains(eventName)) _results.Add(eventName);` over the entries. */
  function AddResults(results: seq<string>, es: seq<Entry>): seq<string>
    decreases |es|
  {
    if es == [] then results
    else
      var n := es[0].eventName;
      AddResults(if n in results then results else results + [n], es[1..])
  }

  /** `_triggers[eventName] = className;` (or `_subscribers`) over the
      entries of that kind. */
  function Assign(m: map<string, string>, es: seq<Entry>, isTrigger: bool): map<string, string>
    decreases |es|
  {
    if es == [] then m
    else Assign(if es[0].isTrigger == isTrigger then m[es[0].eventName := es[0].className] else m, es[1..], isTrigger)
  }

  lemma {:induction false} AddResultsAppend(results: seq<string>, a: seq<Entry>, b: seq<Entry>)
    ensures AddResults(results, a + b) == AddResults(AddResults(results, a), b)
    decreases |a|
  {
    if a != [] {
      var n := a[0].eventName;
      assert (a + b)[1..] == a[1..] + b;
      AddResultsAppend(if n in results then results else results + [n], a[1..], b);
    } else {
      assert a + b == b;
    }
  }

  lemma {:induction false} AssignAppend(m: map<string, string>, a: seq<Entry>, b: seq<Entry>, isTrigger: bool)
    ensures Assign(m, a + b, isTrigger) == Assign(Assign(m, a, isTrigger), b, isTrigger)
    decreases |a|
  {
    if a != [] {
      assert (a + b)[1..] == a[1..] + b;
      AssignAppend(if a[0].isTrigger == isTrigger then m[a[0].eventName := a[0].className] else m, a[1..], b, isTrigger);
    } else {
      assert a + b == b;
    }
  }

  predicate NoDuplicates(s: seq<string>) {
    forall i, j :: 0 <= i < j < |s| ==> s[i] != s[j]
  }

  /** `_results` only grows at its end, never holds a name twice, and ends
      up holding exactly the names it held plus the names of the entries. */
  lemma {:induction false} AddResultsFacts(results: seq<string>, es: seq<Entry>)
    requires NoDuplicates(results)
    ensures NoDuplicates(AddResults(results, es))
    ensures |results| <= |AddResults(results, es)| && AddResults(results, es)[..|results|] == results
    ensures forall n :: n in AddResults(results, es) <==> n in results || exists k :: 0 <= k < |es| && es[k].eventName == n
    decreases |es|
  {
    if es != [] {
      var n := es[0].eventName;
      var next := if n in results then results else results + [n];
      AddResultsFacts(next, es[1..]);
      assert next[..|results|] == results;
      forall m ensures m in AddResults(results, es) <==> m in results || exists k :: 0 <= k < |es| && es[k].eventName == m {
        if exists k :: 0 <= k < |es[1..]| && es[1..][k].eventName == m {
          var k :| 0 <= k < |es[1..]| && es[1..][k].eventName == m;
          assert es[k + 1].eventName == m;
        }
        if exists k :: 0 <= k < |es| && es[k].eventName == m {
          var k :| 0 <= k < |es| && es[k].eventName == m;
          if k > 0 {
            assert es[1..][k - 1].eventName == m;
          }
        }
      }
    }
  }

  /** Entry `e` writes `n`'s class into the map of its kind. */
  predicate Writes(e: Entry, isTrigger: bool, n: string) {
    e.isTrigger == isTrigger && e.eventName == n
  }

  /** Entry `k` is the last of `es` to write `n`. */
  predicate LastWrite(es: seq<Entry>, k: int, isTrigger: bool, n: string) {
    0 <= k < |es| && Writes(es[k], isTrigger, n)
    && forall k' :: k < k' < |es| ==> !Writes(es[k'], isTrigger, n)
  }

  /** Last write wins: a name's class is the one of its last entry of that
      kind. */
  lemma {:induction false} AssignLastWins(m: map<string, string>, es: seq<Entry>, isTrigger: bool, n: string, k: int)
    requires LastWrite(es, k, isTrigger, n)
    ensures n in Assign(m, es, isTrigger) && Assign(m, es, isTrigger)[n] == es[k].className
    decreases |es|
  {
    var next := if es[0].isTrigger == isTrigger then m[es[0].eventName := es[0].className] else m;
    var rest := es[1..];
    if k == 0 {
      assert forall k' :: 0 <= k' < |rest| ==> rest[k'] == es[k' + 1];
      AssignUnwritten(next, rest, isTrigger, n);
    } else {
      assert LastWrite(rest, k - 1, isTrigger, n);
      AssignLastWins(next, rest, isTrigger, n, k - 1);
    }
  }

  /** A name with no entry of that kind keeps what it had. */
  lemma {:induction false} AssignUnwritten(m: map<string, string>, es: seq<Entry>, isTrigger: bool, n: string)
    requires forall k :: 0 <= k < |es| ==> !Writes(es[k], isTrigger, n)
    ensures n in Assign(m, es, isTrigger) <==> n in m
    ensures n in m ==> Assign(m, es, isTrigger)[n] == m[n]
    decreases |es|
  {
    if es != [] {
      var next := if es[0].isTrigger == isTrigger then m[es[0].eventName := es[0].className] else m;
      assert !Writes(es[0], isTrigger, n);
      assert forall k :: 0 <= k < |es[1..]| ==> es[1..][k] == es[k + 1];
      AssignUnwritten(next, es[1..], isTrigger, n);
    }
  }

  /** The window's static collections: `_results`, `_triggers` and
      `_subscribers`. */
  class EventIndex {
    var results: seq<string>
    var triggers: map<string, string>
    var subscribers: map<string, string>

    /** Every name is listed once, and every name with a trigger or a
        subscriber class is listed. */
    ghost predicate Valid()
      reads this
    {
      && NoDuplicates(results)
      && (forall n :: n in triggers ==> n in results)
      && (forall n :: n in subscribers ==> n in results)
    }

    constructor ()
      ensures results == [] && triggers == map[] && subscribers == map[]
      ensures Valid()
    {
      results := [];
      triggers := map[];
      subscribers := map[];
    }

    /** The collections hold what they held at the start plus the entries `done`. */
    twostate predicate Applied(done: seq<Entry>)
      reads this
    {
      && results == AddResults(old(results), done)
      && triggers == Assign(old(triggers), done, true)
      && subscribers == Assign(old(subscribers), done, false)
    }

    /** The bookkeeping of one match. */
    method Record(e: Entry)
      requires Valid()
      modifies this
      ensures Valid()
      ensures results == AddResults(old(results), [e])
      ensures triggers == Assign(old(triggers), [e], true)
      ensures subscribers == Assign(old(subscribers), [e], false)
    {
      if e.eventName !in results {
        results := results + [e.eventName];
      }
      if e.isTrigger {
        triggers := triggers[e.eventName := e.className];
      } else {
        subscribers := subscribers[e.eventName := e.className];
      }
    }

    /** One `foreach (Match match in ...)` loop. */
    method ScanSites(text: string, sites: seq<CallSite>, isTrigger: bool) returns (failed: bool)
      requires Valid() && SitesIn(text, sites)
      modifies this
      ensures Valid()
      ensures failed == SiteScan(text, sites, isTrigger).failed
      ensures results == AddResults(old(results), SiteScan(text, sites, isTrigger).entries)
      ensures triggers == Assign(old(triggers), SiteScan(text, sites, isTrigger).entries, true)
      ensures subscribers == Assign(old(subscribers), SiteScan(text, sites, isTrigger).entries, false)
    {
      ghost var done: seq<Entry> := [];
      for i := 0 to |sites|
        invariant Valid()
        invariant SiteProgress(text, sites, i, done, isTrigger)
        invariant Applied(done)
      {
        SiteStep(text, sites, i, done, isTrigger);
        var site := sites[i];
        var eventName := ExtractEventName(site.firstArg);
        if eventName.None? {
          return true;
        }
        var className := FindClassName(text, site.index);
        var e := Entry(isTrigger, eventName.value, className);
        AddResultsAppend(old(results), done, [e]);
        AssignAppend(old(triggers), done, [e], true);
        AssignAppend(old(subscribers), done, [e], false);
        Record(e);
        done := done + [e];
      }
      assert done + [] == done;
      return false;
    }

    /** The body of `ScanEvents`' loop over files. */
    method ScanFile(f: SourceFile) returns (failed: bool)
      requires Valid() && Wellformed(f)
      modifies this
      ensures Valid()
      ensures failed == FileScan(f).failed
      ensures results == AddResults(old(results), FileScan(f).entries)
      ensures triggers == Assign(old(triggers), FileScan(f).entries, true)
      ensures subscribers == Assign(old(subscribers), FileScan(f).entries, false)
    {
      ghost var ts := SiteScan(f.text, f.triggerSites, true);
      failed := ScanSites(f.text, f.triggerSites, true);
      if failed {
        return;
      }
      ghost var ss := SiteScan(f.text, f.subscribeSites, false);
      ghost var mid := (results, triggers, subscribers);
      failed := ScanSites(f.text, f.subscribeSites, false);
      AddResultsAppend(old(results), ts.entries, ss.entries);
      AssignAppend(old(triggers), ts.entries, ss.entries, true);
      AssignAppend(old(subscribers), ts.entries, ss.entries, false);
    }

    /** `ScanEvents`: every file in turn; an exception ends the scan. */
    method ScanEvents(files: seq<ScannedFile>) returns (failed: bool)
      requires Valid()
      modifies this
      ensures Valid()
      ensures failed == FilesScan(files).failed
      ensures results == AddResults(old(results), FilesScan(files).entries)
      ensures triggers == Assign(old(triggers), FilesScan(files).entries, true)
      ensures subscribers == Assign(old(subscribers), FilesScan(files).entries, false)
    {
      ghost var done: seq<Entry> := [];
      for i := 0 to |files|
        invariant Valid()
        invariant FilesProgress(files, i, done)
        invariant Applied(done)
      {
        FileStep(files, i, done);
        ghost var fs := FileScan(files[i]);
        failed := ScanFile(files[i]);
        AddResultsAppend(old(results), done, fs.entries);
        AssignAppend(old(triggers), done, fs.entries, true);
        AssignAppend(old(subscribers), done, fs.entries, false);
        if failed {
          return;
        }
        done := done + fs.entries;
      }
      assert done + [] == done;
      return false;
    }
  }
}
