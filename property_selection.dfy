/** The property-import form: one entry per fetched GA4 property, keyed by the property's
    resource name, holding whether it is selected, the identifier and display name the client
    will get, and a per-row error. Characters are modelled as ASCII. */
module PropertySelection {
  import opened Common

  // ----- Characters -----

  predicate IsAlnum(c: char) { 'a' <= c <= 'z' || '0' <= c <= '9' }

  /** `[a-z0-9-]` */
  predicate IsIdentChar(c: char) { IsAlnum(c) || c == '-' }

  /** `\s`, restricted to ASCII. */
  predicate IsSpace(c: char) {
    c == ' ' || c == '\t' || c == '\n' || c == '\U{0B}' || c == '\U{0C}' || c == '\r'
  }

  /** `[a-z0-9\s-]` */
  predicate IsSlugSourceChar(c: char) { IsIdentChar(c) || IsSpace(c) }

  /** `toLowerCase` on one ASCII character. */
  function LowerChar(c: char): (r: char)
    ensures 'A' <= c <= 'Z' ==> 'a' <= r <= 'z' && r as int == c as int + 32
    ensures !('A' <= c <= 'Z') ==> r == c
  {
    if 'A' <= c <= 'Z' then (c as int + 32) as char else c
  }

  function Lower(s: string): (r: string)
    ensures |r| == |s|
  {
    seq(|s|, i requires 0 <= i < |s| => LowerChar(s[i]))
  }

  /** `replace(/[^...]/g, "")`: the characters satisfying `keep`, in order. */
  function Keep(s: string, keep: char -> bool): (r: string)
    ensures |r| <= |s|
    ensures forall i :: 0 <= i < |r| ==> keep(r[i])
  {
    if s == [] then []
    else if keep(s[0]) then [s[0]] + Keep(s[1..], keep)
    else Keep(s[1..], keep)
  }

  /** Lowercasing leaves `[a-z0-9-]` alone. */
  lemma LowerKeepsIdentChars(s: string)
    requires forall i :: 0 <= i < |s| ==> IsIdentChar(s[i])
    ensures Lower(s) == s
  {
  }

  /** One character is kept exactly when `keep` accepts it. */
  lemma KeepOne(c: char, keep: char -> bool)
    ensures Keep([c], keep) == if keep(c) then [c] else []
  {
    assert [c][1..] == [];
  }

  /** Filtering distributes over concatenation; with `KeepOne` this pins `Keep(s, keep)` down
      as the characters of `s` that `keep` accepts, each once, in their order in `s`. */
  lemma {:induction false} KeepAppend(s: string, t: string, keep: char -> bool)
    ensures Keep(s + t, keep) == Keep(s, keep) + Keep(t, keep)
  {
    if s == [] {
      assert s + t == t;
    } else {
      assert (s + t)[0] == s[0];
      assert (s + t)[1..] == s[1..] + t;
      KeepAppend(s[1..], t, keep);
    }
  }

  /** A string all of whose characters are kept is its own filtering. */
  lemma {:induction false} KeepAllKept(s: string, keep: char -> bool)
    requires forall i :: 0 <= i < |s| ==> keep(s[i])
    ensures Keep(s, keep) == s
  {
    if s != [] {
      KeepAllKept(s[1..], keep);
    }
  }

  function Take(s: string, n: nat): (r: string)
    ensures |r| <= n && r <= s
    ensures |s| <= n ==> r == s
  {
    if |s| <= n then s else s[..n]
  }

  // ----- The identifier format `^[a-z0-9]+(?:-[a-z0-9]+)*$` -----

  /** The regular expression, read left to right: one letter or digit, then a tail. */
  predicate MatchesIdentifierFormat(s: string) {
    |s| > 0 && IsAlnum(s[0]) && MatchesTail(s[1..])
  }

  /** What may follow a letter or digit: more of them, or a hyphen that a letter or digit follows. */
  predicate MatchesTail(t: string)
    decreases |t|
  {
    if t == [] then true
    else if IsAlnum(t[0]) then MatchesTail(t[1..])
    else t[0] == '-' && |t| >= 2 && IsAlnum(t[1]) && MatchesTail(t[2..])
  }

  predicate AllIdentChars(s: string) { forall i :: 0 <= i < |s| ==> IsIdentChar(s[i]) }

  predicate NoDoubleHyphen(s: string) { forall i :: 0 <= i < |s| - 1 ==> !(s[i] == '-' && s[i + 1] == '-') }

  /** The same format, character by character: letters, digits and hyphens, with no hyphen at
      either end and no two hyphens in a row. */
  predicate WellFormed(s: string) {
    && |s| > 0
    && AllIdentChars(s)
    && s[0] != '-'
    && s[|s| - 1] != '-'
    && NoDoubleHyphen(s)
  }

  lemma {:induction false} TailIff(t: string)
    ensures MatchesTail(t) <==> AllIdentChars(t) && NoDoubleHyphen(t) && (t != [] ==> t[|t| - 1] != '-')
    decreases |t|
  {
    if t == [] {
    } else if IsAlnum(t[0]) {
      TailIff(t[1..]);
      assert forall i :: 1 <= i < |t| ==> t[i] == t[1..][i - 1];
    } else if t[0] == '-' && |t| >= 2 && IsAlnum(t[1]) {
      TailIff(t[2..]);
      assert forall i :: 2 <= i < |t| ==> t[i] == t[2..][i - 2];
    } else if t[0] == '-' && |t| >= 2 && t[1] == '-' {
      assert !NoDoubleHyphen(t) by { assert t[0] == '-' && t[1] == '-'; }
    } else if t[0] == '-' && |t| >= 2 {
      assert !IsIdentChar(t[1]);
    } else if t[0] == '-' {
      assert t[|t| - 1] == '-';
    } else {
      assert !IsIdentChar(t[0]);
    }
  }

  /** The regular expression accepts exactly the well-formed identifiers. */
  lemma FormatIff(s: string)
    ensures MatchesIdentifierFormat(s) <==> WellFormed(s)
  {
    if |s| > 0 {
      TailIff(s[1..]);
      assert forall i :: 1 <= i < |s| ==> s[i] == s[1..][i - 1];
      if |s| >= 2 && s[0] == '-' && s[1] == '-' {
        assert !NoDoubleHyphen(s);
      }
    }
  }

  // ----- Sanitising a typed identifier -----

  /** `value.toLowerCase().replace(/[^a-z0-9-]/g, "")` */
  function Sanitise(value: string): (r: string)
    ensures AllIdentChars(r)
    ensures |r| <= |value|
  {
    Keep(Lower(value), IsIdentChar)
  }

  /** A value is left as it is exactly when it is made of `[a-z0-9-]` already. */
  lemma SanitiseFixpoint(value: string)
    ensures Sanitise(value) == value <==> AllIdentChars(value)
  {
    if AllIdentChars(value) {
      LowerKeepsIdentChars(value);
      KeepAllKept(value, IsIdentChar);
    }
  }

  /** Sanitising works character by character: each character is lowercased and then kept
      exactly when it is in `[a-z0-9-]`, and the survivors stay in their order. */
  lemma SanitiseOne(c: char)
    ensures Sanitise([c]) == if IsIdentChar(LowerChar(c)) then [LowerChar(c)] else []
  {
    assert Lower([c]) == [LowerChar(c)];
    KeepOne(LowerChar(c), IsIdentChar);
  }

  lemma SanitiseAppend(s: string, t: string)
    ensures Sanitise(s + t) == Sanitise(s) + Sanitise(t)
  {
    assert Lower(s + t) == Lower(s) + Lower(t);
    KeepAppend(Lower(s), Lower(t), IsIdentChar);
  }

  /** A rejected character is dropped and the text on either side of it is sanitised as if
      the two were adjacent. */
  lemma SanitiseDropsOnlyRejected(s: string, c: char, t: string)
    requires !IsIdentChar(LowerChar(c))
    ensures Sanitise(s + [c] + t) == Sanitise(s) + Sanitise(t)
  {
    SanitiseAppend(s + [c], t);
    SanitiseAppend(s, [c]);
    SanitiseOne(c);
  }

  lemma SanitiseIdempotent(value: string)
    ensures Sanitise(Sanitise(value)) == Sanitise(value)
  {
    SanitiseFixpoint(Sanitise(value));
  }

  // ----- The suggested identifier -----

  /** `replace(/\s+/g, "-")`: each run of whitespace becomes one hyphen; `inRun` says the
      previous character was whitespace. */
  function CollapseSpaces(s: string, inRun: bool): (r: string)
    ensures |r| <= |s|
    ensures forall i :: 0 <= i < |r| ==> !IsSpace(r[i]) && (r[i] == '-' || r[i] in s)
  {
    if s == [] then []
    else if IsSpace(s[0]) then (if inRun then [] else "-") + CollapseSpaces(s[1..], true)
    else [s[0]] + CollapseSpaces(s[1..], false)
  }

  /** A string without whitespace goes through unchanged. */
  lemma {:induction false} CollapseWithoutSpaces(s: string, inRun: bool)
    requires forall i :: 0 <= i < |s| ==> !IsSpace(s[i])
    ensures CollapseSpaces(s, inRun) == s
  {
    if s != [] {
      CollapseWithoutSpaces(s[1..], false);
    }
  }

  /** A character that is not whitespace is copied, and ends any run. */
  lemma CollapseStep(c: char, t: string, inRun: bool)
    requires !IsSpace(c)
    ensures CollapseSpaces([c] + t, inRun) == [c] + CollapseSpaces(t, false)
  {
    assert ([c] + t)[1..] == t;
  }

  /** Text that ends in a non-whitespace character is collapsed on its own: what follows it
      starts outside a run. */
  lemma {:induction false} CollapseAppend(u: string, v: string, inRun: bool)
    requires |u| > 0 && !IsSpace(u[|u| - 1])
    ensures CollapseSpaces(u + v, inRun) == CollapseSpaces(u, inRun) + CollapseSpaces(v, false)
  {
    if |u| == 1 {
      assert u + v == [u[0]] + v && u == [u[0]] + [];
      CollapseStep(u[0], v, inRun);
      CollapseStep(u[0], [], inRun);
    } else {
      assert (u + v)[0] == u[0];
      assert (u + v)[1..] == u[1..] + v;
      CollapseAppend(u[1..], v, IsSpace(u[0]));
    }
  }

  /** A whitespace run anywhere between two non-whitespace characters, or at the end of the
      text, becomes exactly one hyphen; the text on either side is collapsed on its own. */
  lemma CollapseInteriorRun(u: string, ws: string, t: string, inRun: bool)
    requires |u| > 0 && !IsSpace(u[|u| - 1])
    requires |ws| > 0 && forall i :: 0 <= i < |ws| ==> IsSpace(ws[i])
    requires t == [] || !IsSpace(t[0])
    ensures CollapseSpaces(u + ws + t, inRun) == CollapseSpaces(u, inRun) + "-" + CollapseSpaces(t, false)
  {
    assert u + ws + t == u + (ws + t);
    CollapseAppend(u, ws + t, inRun);
    CollapseRun(ws, t);
  }

  /** A whitespace run followed by a non-whitespace character becomes exactly one hyphen. */
  lemma {:induction false} CollapseRun(ws: string, t: string)
    requires |ws| > 0 && forall i :: 0 <= i < |ws| ==> IsSpace(ws[i])
    requires t == [] || !IsSpace(t[0])
    ensures CollapseSpaces(ws + t, false) == "-" + CollapseSpaces(t, false)
  {
    assert (ws + t)[1..] == ws[1..] + t;
    RunInside(ws[1..], t);
  }

  lemma {:induction false} RunInside(ws: string, t: string)
    requires forall i :: 0 <= i < |ws| ==> IsSpace(ws[i])
    requires t == [] || !IsSpace(t[0])
    ensures CollapseSpaces(ws + t, true) == CollapseSpaces(t, false)
  {
    if ws == [] {
      assert ws + t == t;
      if t != [] {
        assert t[1..] == t[1..];
      }
    } else {
      assert (ws + t)[1..] == ws[1..] + t;
      RunInside(ws[1..], t);
    }
  }

  /** The identifier suggested for a display name, as the form computes it: lowercase, drop
      everything but letters, digits, whitespace and hyphens, turn whitespace runs into hyphens,
      keep the first 50 characters. */
  function SuggestIdentifierAsWritten(displayName: string): (r: string)
    ensures |r| <= 50
    ensures AllIdentChars(r)
  {
    var kept := Keep(Lower(displayName), IsSlugSourceChar);
    var c := CollapseSpaces(kept, false);
    assert forall i :: 0 <= i < |c| ==> IsIdentChar(c[i]) by {
      forall i | 0 <= i < |c| ensures IsIdentChar(c[i]) {
        if c[i] != '-' {
          var j :| 0 <= j < |kept| && kept[j] == c[i];
        }
      }
    }
    Take(c, 50)
  }

  /** The letter-and-digit runs of `s`, joined by single hyphens; whitespace and hyphens only
      separate runs. `pending` says a separator was seen after the last letter or digit emitted. */
  function JoinRuns(s: string, started: bool, pending: bool): (r: string)
    requires pending ==> started
    ensures AllIdentChars(r) && NoDoubleHyphen(r)
    ensures r != [] ==> IsAlnum(r[|r| - 1])
    ensures r != [] && !started ==> IsAlnum(r[0])
    ensures |r| <= 2 * |s|
  {
    if s == [] then []
    else if IsAlnum(s[0]) then
      var rest := JoinRuns(s[1..], true, false);
      PrependWord(pending, s[0], rest);
      (if pending then "-" else "") + [s[0]] + rest
    else JoinRuns(s[1..], started, started)
  }

  /** Emitting a letter or digit, after a hyphen if a separator is pending, in front of a
      joined tail keeps the join free of doubled hyphens. */
  lemma PrependWord(pending: bool, c: char, rest: string)
    requires IsAlnum(c) && AllIdentChars(rest) && NoDoubleHyphen(rest)
    requires rest != [] ==> IsAlnum(rest[|rest| - 1])
    ensures var r := (if pending then "-" else "") + [c] + rest;
      && AllIdentChars(r) && NoDoubleHyphen(r)
      && IsAlnum(r[|r| - 1])
      && (!pending ==> r[0] == c)
      && |r| <= |rest| + 2
  {
    var r := (if pending then "-" else "") + [c] + rest;
    var k := if pending then 1 else 0;
    assert r[k] == c;
    forall i | 0 <= i < |r| ensures IsIdentChar(r[i]) {
      if i > k {
        assert r[i] == rest[i - k - 1];
      }
    }
    forall i | 0 <= i < |r| - 1 ensures !(r[i] == '-' && r[i + 1] == '-') {
      if i > k {
        assert r[i] == rest[i - k - 1] && r[i + 1] == rest[i - k];
      }
    }
    if rest != [] {
      assert r[|r| - 1] == rest[|rest| - 1];
    }
  }

  /** Drops one trailing hyphen, the most a string without doubled hyphens can end with. */
  function TrimTrailingHyphen(s: string): (r: string)
    requires NoDoubleHyphen(s)
    ensures r <= s && |r| + 1 >= |s|
    ensures r != [] ==> r[|r| - 1] != '-'
  {
    if |s| > 0 && s[|s| - 1] == '-' then
      assert |s| >= 2 ==> s[|s| - 2] != '-';
      s[..|s| - 1]
    else s
  }

  /** The suggested identifier, corrected so that it always meets the identifier format (or is
      empty): separators at either end are dropped, runs of whitespace and hyphens become one
      hyphen, and a hyphen left at the end by the 50-character cut is dropped. */
  function SuggestIdentifier(displayName: string): (r: string)
    ensures |r| <= 50
    ensures r == [] || WellFormed(r)
  {
    var j := JoinRuns(Keep(Lower(displayName), IsSlugSourceChar), false, false);
    var t := Take(j, 50);
    assert AllIdentChars(t) && NoDoubleHyphen(t) by {
      assert forall i :: 0 <= i < |t| ==> t[i] == j[i];
    }
    assert t != [] ==> t[0] == j[0];
    var r := TrimTrailingHyphen(t);
    assert forall i :: 0 <= i < |r| ==> r[i] == t[i];
    r
  }

  /** Identifiers that already meet the format survive the suggestion as written unchanged. */
  lemma WellFormedNamesKeptAsWritten(d: string)
    requires WellFormed(d) && |d| <= 50
    ensures SuggestIdentifierAsWritten(d) == d
  {
    LowerKeepsIdentChars(d);
    KeepAllKept(d, IsSlugSourceChar);
    CollapseWithoutSpaces(d, false);
  }

  /** ... and the corrected suggestion too. */
  lemma WellFormedNamesKept(d: string)
    requires WellFormed(d) && |d| <= 50
    ensures SuggestIdentifier(d) == d
  {
    LowerKeepsIdentChars(d);
    KeepAllKept(d, IsSlugSourceChar);
    JoinWellFormed(d);
    assert Take(d, 50) == d;
    assert TrimTrailingHyphen(d) == d;
  }

  lemma JoinWellFormed(d: string)
    requires WellFormed(d)
    ensures JoinRuns(d, false, false) == d
  {
    FormatIff(d);
    JoinTail(d[1..]);
    assert IsAlnum(d[0]);
    assert JoinRuns(d, false, false) == [d[0]] + JoinRuns(d[1..], true, false);
    assert d == [d[0]] + d[1..];
  }

  lemma {:induction false} JoinTail(t: string)
    requires MatchesTail(t)
    ensures JoinRuns(t, true, false) == t
    decreases |t|
  {
    if t != [] {
      if IsAlnum(t[0]) {
        JoinTail(t[1..]);
        assert t == [t[0]] + t[1..];
      } else {
        JoinTail(t[2..]);
        assert t[1..][1..] == t[2..];
        assert t == "-" + [t[1]] + t[2..];
      }
    }
  }

  /** As written, a display name with a spaced hyphen yields a tripled hyphen, which the
      identifier format rejects. */
  lemma SuggestionAsWrittenCanBeMalformed()
    ensures SuggestIdentifierAsWritten("a - b") == "a---b"
    ensures !WellFormed("a---b") && !MatchesIdentifierFormat("a---b")
  {
    SpacedHyphenKept();
    SpacedHyphenCollapsed();
    TripleHyphenMalformed();
  }

  /** The whitespace on either side of the hyphen in "a - b" becomes a hyphen of its own. */
  lemma SpacedHyphenCollapsed()
    ensures CollapseSpaces("a - b", false) == "a---b"
  {
    var d := "a - b";
    assert CollapseSpaces(d[4..], false) == "b";
    assert CollapseSpaces(d[3..], true) == "b";
    assert CollapseSpaces(d[2..], false) == "--b";
    assert CollapseSpaces(d[1..], false) == "---b";
  }

  lemma TripleHyphenMalformed()
    ensures !WellFormed("a---b") && !MatchesIdentifierFormat("a---b")
  {
    FormatIff("a---b");
    assert "a---b"[1] == '-' && "a---b"[2] == '-';
  }

  /** The corrected suggestion joins the same display name's words with one hyphen. */
  lemma SuggestionCorrected()
    ensures SuggestIdentifier("a - b") == "a-b" && WellFormed("a-b")
  {
    SpacedHyphenKept();
    var d := "a - b";
    assert JoinRuns(d[4..], true, true) == "-b";
    assert JoinRuns(d[3..], true, true) == "-b";
    assert JoinRuns(d[2..], true, true) == "-b";
    assert JoinRuns(d[1..], true, false) == "-b";
    assert JoinRuns(d, false, false) == "a-b";
  }

  lemma SpacedHyphenKept()
    ensures Keep(Lower("a - b"), IsSlugSourceChar) == "a - b"
  {
    assert Lower("a - b") == "a - b";
    KeepAllKept("a - b", IsSlugSourceChar);
  }

  // ----- The form's entries -----

  /** A GA4 property as fetched: its resource name (`properties/123456789`) and display name. */
  datatype Ga4Property = Ga4Property(name: string, displayName: string)

  datatype Selection = Selection(isSelected: bool, clientIdentifier: string, clientName: string, error: Option<string>)

  /** One key of the form's record and its entry. */
  datatype Slot = Slot(propertyName: string, entry: Selection)

  /** The record, in key insertion order. */
  type Form = seq<Slot>

  /** The record's keys, in order. */
  function Names(f: Form): (r: seq<string>)
    ensures |r| == |f|
  {
    seq(|f|, k requires 0 <= k < |f| => f[k].propertyName)
  }

  predicate DistinctNames(f: Form) {
    forall i, j :: 0 <= i < j < |f| ==> f[i].propertyName != f[j].propertyName
  }

  predicate HasProperty(f: Form, name: string) {
    name in Names(f)
  }

  /** Where `name` is, if it is a key. */
  function Find(f: Form, name: string): (r: Option<nat>)
    ensures r.Some? ==> r.value < |f| && f[r.value].propertyName == name
    ensures r.None? <==> !HasProperty(f, name)
  {
    if f == [] then None
    else if f[0].propertyName == name then
      assert Names(f)[0] == name;
      Some(0)
    else
      assert Names(f) == [f[0].propertyName] + Names(f[1..]);
      match Find(f[1..], name)
      case None => None
      case Some(k) => Some(k + 1)
  }

  /** `record[name] = entry`: an existing key keeps its place, a new key goes last. */
  function Put(f: Form, name: string, e: Selection): (r: Form)
    requires DistinctNames(f)
    ensures DistinctNames(r)
    ensures Names(r) == if HasProperty(f, name) then Names(f) else Names(f) + [name]
    ensures forall k :: 0 <= k < |f| ==> r[k] == (if f[k].propertyName == name then Slot(name, e) else f[k])
    ensures !HasProperty(f, name) ==> r == f + [Slot(name, e)]
  {
    match Find(f, name)
    case Some(k) =>
      var r := f[k := Slot(name, e)];
      assert forall j :: 0 <= j < |f| && f[j].propertyName == name ==> j == k;
      assert Names(r) == Names(f);
      r
    case None =>
      var r := f + [Slot(name, e)];
      assert forall j :: 0 <= j < |f| ==> Names(f)[j] == f[j].propertyName;
      assert Names(r) == Names(f) + [name];
      r
  }

  /** The entry each fetched property starts with. */
  function InitialEntry(p: Ga4Property): (r: Selection)
    ensures !r.isSelected && r.error == None && r.clientName == p.displayName
    ensures AllIdentChars(r.clientIdentifier) && |r.clientIdentifier| <= 50
  {
    Selection(false, SuggestIdentifierAsWritten(p.displayName), p.displayName, None)
  }

  /** The fetched properties' names, in order. */
  function PropertyNames(props: seq<Ga4Property>): (r: seq<string>)
    ensures |r| == |props|
  {
    seq(|props|, k requires 0 <= k < |props| => props[k].name)
  }

  /** The `reduce` over the fetched properties, from the accumulator `acc`. */
  function InitialFrom(acc: Form, props: seq<Ga4Property>): (r: Form)
    requires DistinctNames(acc)
    ensures DistinctNames(r)
    decreases |props|
  {
    if props == [] then acc
    else InitialFrom(Put(acc, props[0].name, InitialEntry(props[0])), props[1..])
  }

  /** Assigning one key adds at most that key to the record's keys. */
  lemma PutNames(f: Form, name: string, e: Selection)
    requires DistinctNames(f)
    ensures forall n :: n in Names(Put(f, name, e)) <==> n in Names(f) || n == name
  {
  }

  /** Assigning one key adds at most that slot to the record's slots. */
  lemma PutSlots(f: Form, name: string, e: Selection)
    requires DistinctNames(f)
    ensures forall x :: x in Put(f, name, e) ==> x in f || x == Slot(name, e)
  {
    var r := Put(f, name, e);
    assert |Names(r)| == |r|;
    forall x | x in r ensures x in f || x == Slot(name, e) {
      var k :| 0 <= k < |r| && r[k] == x;
      if k < |f| {
        assert r[k] == (if f[k].propertyName == name then Slot(name, e) else f[k]);
      }
    }
  }

  lemma PropertyNamesCons(props: seq<Ga4Property>)
    requires props != []
    ensures forall n :: n in PropertyNames(props) <==> n == props[0].name || n in PropertyNames(props[1..])
  {
    assert PropertyNames(props) == [props[0].name] + PropertyNames(props[1..]);
  }

  /** The keys of the reduced record are the accumulator's and the properties' names. */
  lemma {:induction false} InitialFromNames(acc: Form, props: seq<Ga4Property>)
    requires DistinctNames(acc)
    ensures forall n :: n in Names(InitialFrom(acc, props)) <==> n in Names(acc) || n in PropertyNames(props)
    decreases |props|
  {
    if props != [] {
      var next := Put(acc, props[0].name, InitialEntry(props[0]));
      var r := InitialFrom(next, props[1..]);
      assert InitialFrom(acc, props) == r;
      PutNames(acc, props[0].name, InitialEntry(props[0]));
      InitialFromNames(next, props[1..]);
      PropertyNamesCons(props);
      forall n ensures n in Names(r) <==> n in Names(acc) || n in PropertyNames(props) {
        assert n in Names(r) <==> n in Names(next) || n in PropertyNames(props[1..]);
        assert n in Names(next) <==> n in Names(acc) || n == props[0].name;
      }
    }
  }

  /** Every slot of the reduced record comes from the accumulator or is a property's initial entry. */
  lemma {:induction false} InitialFromSlots(acc: Form, props: seq<Ga4Property>)
    requires DistinctNames(acc)
    ensures forall x :: x in InitialFrom(acc, props) ==>
      x in acc || exists p :: p in props && x == Slot(p.name, InitialEntry(p))
    decreases |props|
  {
    if props != [] {
      var p0 := props[0];
      var next := Put(acc, p0.name, InitialEntry(p0));
      PutSlots(acc, p0.name, InitialEntry(p0));
      InitialFromSlots(next, props[1..]);
      forall x | x in InitialFrom(acc, props)
        ensures x in acc || exists p :: p in props && x == Slot(p.name, InitialEntry(p))
      {
        if x in next {
          if x !in acc {
            assert p0 in props && x == Slot(p0.name, InitialEntry(p0));
          }
        } else {
          var p :| p in props[1..] && x == Slot(p.name, InitialEntry(p));
          assert p in props;
        }
      }
    }
  }

  /** Reducing from the empty record yields exactly the properties' names as keys. */
  lemma InitialFromEmptyNames(props: seq<Ga4Property>)
    ensures forall n :: n in Names(InitialFrom([], props)) <==> n in PropertyNames(props)
  {
    InitialFromNames([], props);
    assert Names([]) == [];
  }

  /** Reducing from the empty record yields only the properties' initial entries. */
  lemma InitialFromEmptySlots(props: seq<Ga4Property>)
    ensures forall k :: 0 <= k < |InitialFrom([], props)| ==>
      exists p :: p in props && InitialFrom([], props)[k] == Slot(p.name, InitialEntry(p))
  {
    InitialFromSlots([], props);
    var r := InitialFrom([], props);
    forall k | 0 <= k < |r| ensures exists p :: p in props && r[k] == Slot(p.name, InitialEntry(p)) {
      assert r[k] in r;
    }
  }

  /** The form's starting state: one unselected, error-free entry per fetched property name. */
  function InitialState(props: seq<Ga4Property>): (r: Form)
    ensures DistinctNames(r)
    ensures forall n :: n in Names(r) <==> n in PropertyNames(props)
    ensures forall k :: 0 <= k < |r| ==> exists p :: p in props && r[k] == Slot(p.name, InitialEntry(p))
  {
    InitialFromEmptyNames(props);
    InitialFromEmptySlots(props);
    InitialFrom([], props)
  }

  /** With distinct property names, the form lists the properties in their fetched order. */
  lemma InitialStateInOrder(props: seq<Ga4Property>)
    requires forall i, j :: 0 <= i < j < |props| ==> props[i].name != props[j].name
    ensures |InitialState(props)| == |props|
    ensures forall k :: 0 <= k < |props| ==> InitialState(props)[k] == Slot(props[k].name, InitialEntry(props[k]))
  {
    InitialFromAppends([], props);
  }

  lemma {:induction false} InitialFromAppends(acc: Form, props: seq<Ga4Property>)
    requires DistinctNames(acc)
    requires forall i, j :: 0 <= i < j < |props| ==> props[i].name != props[j].name
    requires forall k :: 0 <= k < |props| ==> props[k].name !in Names(acc)
    ensures |InitialFrom(acc, props)| == |acc| + |props|
    ensures forall k :: 0 <= k < |acc| ==> InitialFrom(acc, props)[k] == acc[k]
    ensures forall k :: 0 <= k < |props| ==> InitialFrom(acc, props)[|acc| + k] == Slot(props[k].name, InitialEntry(props[k]))
    decreases |props|
  {
    if props != [] {
      var next := Put(acc, props[0].name, InitialEntry(props[0]));
      assert next == acc + [Slot(props[0].name, InitialEntry(props[0]))];
      forall k | 0 <= k < |props[1..]| ensures props[1..][k].name !in Names(next) {
        assert props[1..][k] == props[k + 1];
        assert props[0].name != props[k + 1].name;
      }
      InitialFromAppends(next, props[1..]);
      var r := InitialFrom(next, props[1..]);
      assert InitialFrom(acc, props) == r;
      assert |r| == |acc| + |props|;
      forall k | 0 <= k < |acc| ensures r[k] == acc[k] {
        assert r[k] == next[k];
      }
      forall k | 0 <= k < |props| ensures r[|acc| + k] == Slot(props[k].name, InitialEntry(props[k])) {
        if k > 0 {
          assert props[1..][k - 1] == props[k];
          assert r[|next| + (k - 1)] == Slot(props[1..][k - 1].name, InitialEntry(props[1..][k - 1]));
        } else {
          assert r[|acc|] == next[|acc|];
        }
      }
    }
  }

  // ----- The change handlers (each a state update `prev => ...`) -----

  /** The word validation looks for to recognise a format error. */
  const FormatMarker := "lowercase"
  const FormatHint := " letters, numbers, and hyphens (e.g., my-client-site)."
  const FormatMessage := "Use " + FormatMarker + FormatHint

  /** Replaces the named entry; the keys, their order and every other entry stay as they were. */
  function SetEntry(f: Form, name: string, e: Selection): (r: Form)
    requires DistinctNames(f) && HasProperty(f, name)
    ensures DistinctNames(r) && Names(r) == Names(f)
    ensures forall k :: 0 <= k < |f| ==> r[k] == (if f[k].propertyName == name then Slot(name, e) else f[k])
  {
    var k := Find(f, name).value;
    var r := f[k := Slot(name, e)];
    assert forall j :: 0 <= j < |f| && f[j].propertyName == name ==> j == k;
    assert Names(r) == Names(f);
    r
  }

  /** The named entry, for a key that is present. */
  function EntryOf(f: Form, name: string): Selection
    requires HasProperty(f, name)
  {
    f[Find(f, name).value].entry
  }

  /** `handleCheckboxChange(propertyName, checked)` */
  function HandleCheckboxChange(f: Form, name: string, checked: bool): (r: Form)
    requires DistinctNames(f) && HasProperty(f, name)
    ensures DistinctNames(r) && Names(r) == Names(f)
    ensures EntryOf(r, name) == EntryOf(f, name).(isSelected := checked)
    ensures forall k :: 0 <= k < |f| && f[k].propertyName != name ==> r[k] == f[k]
  {
    SetEntry(f, name, EntryOf(f, name).(isSelected := checked))
  }

  /** `handleIdentifierChange(propertyName, value)`: the sanitised value is stored, with a
      format error exactly when it is non-empty and breaks the format. */
  function HandleIdentifierChange(f: Form, name: string, value: string): (r: Form)
    requires DistinctNames(f) && HasProperty(f, name)
    ensures DistinctNames(r) && Names(r) == Names(f)
    ensures EntryOf(r, name).clientIdentifier == Sanitise(value)
    ensures EntryOf(r, name).error == (if Sanitise(value) != "" && !WellFormed(Sanitise(value)) then Some(FormatMessage) else None)
    ensures EntryOf(r, name).isSelected == EntryOf(f, name).isSelected
    ensures EntryOf(r, name).clientName == EntryOf(f, name).clientName
    ensures forall k :: 0 <= k < |f| && f[k].propertyName != name ==> r[k] == f[k]
  {
    var sanitized := Sanitise(value);
    var isValid := MatchesIdentifierFormat(sanitized) || sanitized == "";
    FormatIff(sanitized);
    SetEntry(f, name, EntryOf(f, name).(clientIdentifier := sanitized,
                                        error := if !isValid && sanitized != "" then Some(FormatMessage) else None))
  }

  /** `handleNameChange(propertyName, value)` */
  function HandleNameChange(f: Form, name: string, value: string): (r: Form)
    requires DistinctNames(f) && HasProperty(f, name)
    ensures DistinctNames(r) && Names(r) == Names(f)
    ensures EntryOf(r, name) == EntryOf(f, name).(clientName := value)
    ensures forall k :: 0 <= k < |f| && f[k].propertyName != name ==> r[k] == f[k]
  {
    SetEntry(f, name, EntryOf(f, name).(clientName := value))
  }

  /** Ticking a box and ticking it back restores the form. */
  lemma CheckboxRoundTrip(f: Form, name: string, checked: bool)
    requires DistinctNames(f) && HasProperty(f, name)
    ensures HandleCheckboxChange(HandleCheckboxChange(f, name, checked), name, EntryOf(f, name).isSelected) == f
  {
    var g := HandleCheckboxChange(f, name, checked);
    var h := HandleCheckboxChange(g, name, EntryOf(f, name).isSelected);
    var i := Find(f, name).value;
    assert h[i] == f[i];
    assert forall k :: 0 <= k < |f| ==> h[k] == f[k];
  }

  /** Typing back the identifier that was stored changes nothing. */
  lemma IdentifierChangeIdempotent(f: Form, name: string, value: string)
    requires DistinctNames(f) && HasProperty(f, name)
    ensures var g := HandleIdentifierChange(f, name, value);
      HandleIdentifierChange(g, name, EntryOf(g, name).clientIdentifier) == g
  {
    var g := HandleIdentifierChange(f, name, value);
    SanitiseIdempotent(value);
    var h := HandleIdentifierChange(g, name, EntryOf(g, name).clientIdentifier);
    var i := Find(f, name).value;
    assert h[i] == g[i];
    assert forall k :: 0 <= k < |f| ==> h[k] == g[k];
  }

  // ----- Validation -----

  const IdentifierRequiredMessage := "Client Identifier is required."
  const NameRequiredMessage := "Client Name is required."
  const NoSelectionMessage := "Please select at least one property to import."

  /** `s.includes(sub)`: `sub` starts at some position of `s`. */
  predicate Contains(s: string, sub: string)
    decreases |s|
  {
    sub <= s || (s != [] && Contains(s[1..], sub))
  }

  /** `sub` found at position `i`. */
  lemma {:induction false} ContainsAt(s: string, sub: string, i: nat)
    requires i <= |s| && sub <= s[i..]
    ensures Contains(s, sub)
  {
    if i > 0 {
      assert s[1..][i - 1..] == s[i..];
      ContainsAt(s[1..], sub, i - 1);
    }
  }

  /** A format error from the identifier handler is recognised as one by validation. */
  lemma FormatMessageMentionsLowercase()
    ensures Contains(FormatMessage, FormatMarker)
  {
    assert FormatMessage[4..] == FormatMarker + FormatHint;
    ContainsAt(FormatMessage, FormatMarker, 4);
  }

  /** A row validation accepts: unselected, or with an identifier, a name and no format error. */
  predicate EntryOk(e: Selection) {
    !e.isSelected ||
      (e.clientIdentifier != "" && !(Truthy(e.error) && Contains(e.error.value, FormatMarker)) && e.clientName != "")
  }

  predicate AnySelected(f: Form) {
    exists k :: 0 <= k < |f| && f[k].entry.isSelected
  }

  /** The verdict of `validateSelections`. */
  predicate SelectionsValid(f: Form) {
    AnySelected(f) && forall k :: 0 <= k < |f| ==> EntryOk(f[k].entry)
  }

  /** One entry after validation has written its error. */
  function ValidateSlot(s: Slot): (r: Slot)
    ensures r.propertyName == s.propertyName
    ensures r.entry == s.entry.(error := r.entry.error)
  {
    var e := s.entry;
    if !e.isSelected then Slot(s.propertyName, e.(error := None))
    else
      var e1 := if e.clientIdentifier == "" then e.(error := Some(IdentifierRequiredMessage)) else e;
      var e2 :=
        if e.clientName == "" then
          e1.(error := Some((if Truthy(e1.error) then e1.error.value + " " else "") + NameRequiredMessage))
        else e1;
      Slot(s.propertyName, e2)
  }

  function ValidatedForm(f: Form): (r: Form)
    ensures |r| == |f|
  {
    seq(|f|, k requires 0 <= k < |f| => ValidateSlot(f[k]))
  }

  /** `validateSelections()`: walks the entries in key order, writes each row's error into the
      copy it returns, and reports whether the form may be submitted. */
  method ValidateSelections(selectionState: Form) returns (isValid: bool, updatedState: Form, globalError: Option<string>)
    ensures updatedState == ValidatedForm(selectionState)
    ensures isValid <==> SelectionsValid(selectionState)
    ensures globalError == if AnySelected(selectionState) then None else Some(NoSelectionMessage)
  {
    isValid := true;
    var hasSelection := false;
    updatedState := selectionState;
    var i := 0;
    while i < |updatedState|
      invariant 0 <= i <= |selectionState| == |updatedState|
      invariant forall k :: 0 <= k < i ==> updatedState[k] == ValidateSlot(selectionState[k])
      invariant forall k :: i <= k < |updatedState| ==> updatedState[k] == selectionState[k]
      invariant isValid <==> forall k :: 0 <= k < i ==> EntryOk(selectionState[k].entry)
      invariant hasSelection <==> exists k :: 0 <= k < i && selectionState[k].entry.isSelected
    {
      var propertyName := updatedState[i].propertyName;
      var state := updatedState[i].entry;
      if state.isSelected {
        hasSelection := true;
        if state.clientIdentifier == "" {
          updatedState := updatedState[i := Slot(propertyName, updatedState[i].entry.(error := Some(IdentifierRequiredMessage)))];
          isValid := false;
        } else if Truthy(state.error) && Contains(state.error.value, FormatMarker) {
          isValid := false;
        }
        if state.clientName == "" {
          var prior := updatedState[i].entry.error;
          updatedState := updatedState[i := Slot(propertyName, updatedState[i].entry.(
            error := Some((if Truthy(prior) then prior.value + " " else "") + NameRequiredMessage)))];
          isValid := false;
        }
      } else {
        updatedState := updatedState[i := Slot(propertyName, state.(error := None))];
      }
      i := i + 1;
    }
    if !hasSelection {
      globalError := Some(NoSelectionMessage);
      isValid := false;
    } else {
      globalError := None;
    }
  }

  /** What validation writes: unselected rows lose their error; a selected row without an
      identifier says so first; a selected row without a name ends with that complaint; a
      selected row with both keeps its error; and every rejected row shows some error. */
  lemma ValidationErrors(f: Form, k: nat)
    requires k < |f|
    ensures var e := f[k].entry; var v := ValidatedForm(f)[k].entry;
      && v.isSelected == e.isSelected && v.clientIdentifier == e.clientIdentifier && v.clientName == e.clientName
      && ValidatedForm(f)[k].propertyName == f[k].propertyName
      && (!e.isSelected ==> v.error == None)
      && (e.isSelected && e.clientIdentifier == "" ==> v.error.Some? && IdentifierRequiredMessage <= v.error.value)
      && (e.isSelected && e.clientName == "" ==>
            v.error.Some? && |v.error.value| >= |NameRequiredMessage|
            && v.error.value[|v.error.value| - |NameRequiredMessage|..] == NameRequiredMessage)
      && (e.isSelected && e.clientIdentifier != "" && e.clientName != "" ==> v == e)
      && (e.isSelected && !EntryOk(e) ==> Truthy(v.error))
  {
    var e := f[k].entry;
    if e.isSelected && e.clientIdentifier == "" && e.clientName == "" {
      var m := IdentifierRequiredMessage + " " + NameRequiredMessage;
      assert ValidatedForm(f)[k].entry.error == Some(m);
      assert m[..|IdentifierRequiredMessage|] == IdentifierRequiredMessage;
    }
  }

  /** The malformed suggestion is never checked: selected with a name and no error, as the
      form starts, its row passes validation. */
  lemma MalformedSuggestionPassesValidation()
    ensures var e := Selection(true, SuggestIdentifierAsWritten("a - b"), "a - b", None);
      EntryOk(e) && !WellFormed(e.clientIdentifier)
  {
    SuggestionAsWrittenCanBeMalformed();
  }

  /** Ticking the one box of a form built from a single property selects its starting entry
      and changes nothing else. */
  lemma TickSingleProperty(p: Ga4Property)
    ensures HasProperty(InitialState([p]), p.name)
    ensures HandleCheckboxChange(InitialState([p]), p.name, true) == [Slot(p.name, InitialEntry(p).(isSelected := true))]
  {
    InitialStateInOrder([p]);
    var start := InitialState([p]);
    assert start == [Slot(p.name, InitialEntry(p))];
    assert Names(start)[0] == p.name;
    var f := HandleCheckboxChange(start, p.name, true);
    assert |f| == 1 && f[0].propertyName == p.name;
    assert Find(f, p.name) == Some(0);
  }

  /** The form lets its own malformed suggestion through: a fetched property displayed as
      "a - b" starts with the identifier "a---b", and once its box is ticked the form passes
      validation although that identifier breaks the format. */
  lemma MalformedStartPassesValidation(p: Ga4Property)
    requires p.displayName == "a - b"
    ensures HasProperty(InitialState([p]), p.name)
    ensures var f := HandleCheckboxChange(InitialState([p]), p.name, true);
      && EntryOf(f, p.name).clientIdentifier == "a---b"
      && SelectionsValid(f)
      && !WellFormed(EntryOf(f, p.name).clientIdentifier)
  {
    TickSingleProperty(p);
    MalformedSuggestionPassesValidation();
    SingleSelectedForm(p.name, InitialEntry(p).(isSelected := true));
    SuggestionAsWrittenCanBeMalformed();
  }

  /** A one-row form whose row is selected and complete passes validation. */
  lemma SingleSelectedForm(name: string, e: Selection)
    requires e.isSelected && EntryOk(e)
    ensures HasProperty([Slot(name, e)], name) && EntryOf([Slot(name, e)], name) == e
    ensures SelectionsValid([Slot(name, e)])
  {
    assert Find([Slot(name, e)], name) == Some(0);
  }

  /** Text containing `sub` still contains it with more text appended. */
  lemma {:induction false} ContainsExtend(s: string, sub: string, t: string)
    requires Contains(s, sub)
    ensures Contains(s + t, sub)
    decreases |s|
  {
    if sub <= s {
      assert sub <= s + t by { assert (s + t)[..|sub|] == s[..|sub|]; }
    } else {
      assert (s + t)[1..] == s[1..] + t;
      ContainsExtend(s[1..], sub, t);
    }
  }

  /** Validating the validated form reaches the same verdict. */
  lemma RevalidationAgrees(f: Form)
    ensures SelectionsValid(ValidatedForm(f)) <==> SelectionsValid(f)
  {
    var v := ValidatedForm(f);
    forall k | 0 <= k < |f| ensures EntryOk(v[k].entry) <==> EntryOk(f[k].entry) {
      var e := f[k].entry;
      if e.isSelected && e.clientIdentifier != "" && e.clientName == "" && Truthy(e.error) && Contains(e.error.value, FormatMarker) {
        ContainsExtend(e.error.value, FormatMarker, " " + NameRequiredMessage);
        assert v[k].entry.error.value == e.error.value + " " + NameRequiredMessage;
        assert e.error.value + " " + NameRequiredMessage == e.error.value + (" " + NameRequiredMessage);
      }
    }
    if AnySelected(f) {
      var k :| 0 <= k < |f| && f[k].entry.isSelected;
      assert v[k].entry.isSelected;
    }
    if AnySelected(v) {
      var k :| 0 <= k < |v| && v[k].entry.isSelected;
      assert f[k].entry.isSelected;
    }
  }

  /** The name complaint is appended again on every failed validation, even when the row
      already carries it. */
  lemma NameComplaintRepeats()
    ensures var f := [Slot("properties/1", Selection(true, "site", "", None))];
      ValidatedForm(ValidatedForm(f))[0].entry.error == Some(NameRequiredMessage + " " + NameRequiredMessage)
  {
    var f := [Slot("properties/1", Selection(true, "site", "", None))];
    var v := ValidatedForm(f);
    assert v[0] == ValidateSlot(f[0]);
    assert "" + NameRequiredMessage == NameRequiredMessage;
    assert v[0].entry.error == Some(NameRequiredMessage);
    assert ValidatedForm(v)[0] == ValidateSlot(v[0]);
  }

  // ----- Submission -----

  /** One element of the list handed to the bulk-create action. */
  datatype ImportItem = ImportItem(propertyId: string, clientIdentifier: string, clientName: string)

  function Project(s: Slot): ImportItem {
    ImportItem(s.propertyName, s.entry.clientIdentifier, s.entry.clientName)
  }

  /** The selected entries, in key order, each projected to an import item. */
  function ImportList(f: Form): (r: seq<ImportItem>)
    ensures |r| <= |f|
  {
    if f == [] then []
    else (if f[0].entry.isSelected then [Project(f[0])] else []) + ImportList(f[1..])
  }

  /** An item is imported exactly when it is a selected entry's projection. */
  lemma {:induction false} ImportListExact(f: Form, item: ImportItem)
    ensures item in ImportList(f) <==> exists k :: 0 <= k < |f| && f[k].entry.isSelected && item == Project(f[k])
  {
    if f != [] {
      ImportListExact(f[1..], item);
      if exists k :: 0 <= k < |f| && f[k].entry.isSelected && item == Project(f[k]) {
        var k :| 0 <= k < |f| && f[k].entry.isSelected && item == Project(f[k]);
        if k > 0 {
          assert f[1..][k - 1] == f[k];
        }
      }
      if exists k :: 0 <= k < |f[1..]| && f[1..][k].entry.isSelected && item == Project(f[1..][k]) {
        var k :| 0 <= k < |f[1..]| && f[1..][k].entry.isSelected && item == Project(f[1..][k]);
        assert f[k + 1] == f[1..][k];
      }
    }
  }

  /** Validation writes only errors, so the list built from the state before validation is the
      list the validated state would give. */
  lemma {:induction false} ValidationKeepsImportList(f: Form)
    ensures ImportList(ValidatedForm(f)) == ImportList(f)
  {
    if f != [] {
      assert ValidatedForm(f)[1..] == ValidatedForm(f[1..]);
      ValidationKeepsImportList(f[1..]);
    }
  }

  /** A valid form imports at least one item, and every item has an identifier and a name. */
  lemma {:induction false} ValidImportList(f: Form)
    requires SelectionsValid(f)
    ensures |ImportList(f)| > 0
    ensures forall item :: item in ImportList(f) ==> item.clientIdentifier != "" && item.clientName != ""
  {
    var k :| 0 <= k < |f| && f[k].entry.isSelected;
    ImportListExact(f, Project(f[k]));
    forall item | item in ImportList(f) ensures item.clientIdentifier != "" && item.clientName != "" {
      ImportListExact(f, item);
    }
  }

  const MissingAgencyMessage := "Agency ID is required but not available"

  /** Where `handleSubmit` stops: validation failed (with the validated state), the agency id
      is missing, or the list goes to the bulk-create action. */
  datatype Submission =
    | Stopped(selection: Form, globalError: Option<string>)
    | Refused(selection: Form, message: string)
    | Sent(selection: Form, agencyId: string, nangoConnectionTableId: string, properties: seq<ImportItem>)

  /** `handleSubmit()`, up to the call of the bulk-create action. */
  method HandleSubmit(selectionState: Form, agencyId: string, nangoConnectionTableId: string) returns (r: Submission)
    ensures r.selection == ValidatedForm(selectionState)
    ensures r.Stopped? <==> !SelectionsValid(selectionState)
    ensures r.Refused? <==> SelectionsValid(selectionState) && agencyId == ""
    ensures r.Refused? ==> r.message == MissingAgencyMessage
    ensures r.Stopped? && !AnySelected(selectionState) ==> r.globalError == Some(NoSelectionMessage)
    ensures r.Sent? ==>
      && r.agencyId == agencyId && r.agencyId != ""
      && r.nangoConnectionTableId == nangoConnectionTableId
      && r.properties == ImportList(selectionState)
      && |r.properties| > 0
      && forall item :: item in r.properties ==> item.clientIdentifier != "" && item.clientName != ""
  {
    var valid, updated, globalError := ValidateSelections(selectionState);
    if !valid {
      return Stopped(updated, globalError);
    }
    var propertiesToImport := ImportList(selectionState);
    if agencyId == "" {
      return Refused(updated, MissingAgencyMessage);
    }
    ValidImportList(selectionState);
    r := Sent(updated, agencyId, nangoConnectionTableId, propertiesToImport);
  }
}
