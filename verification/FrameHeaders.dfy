/** relay/frame_headers.go: dropping what forbids framing from a proxied response. A policy is a
    semicolon-separated list of directives (section 2.2.1 of W3C Content Security Policy Level 3). */
module FrameHeaders {
  import opened Text

  predicate IsFrameAncestors(directive: string) { EqualFold(FirstField(directive), "frame-ancestors") }

  /** The directives of a policy: trimmed, empty ones ignored. */
  function Nonempty(parts: seq<string>): seq<string> {
    if parts == [] then []
    else (if TrimSpace(parts[0]) == "" then [] else [TrimSpace(parts[0])]) + Nonempty(parts[1..])
  }

  function Directives(csp: string): seq<string> { Nonempty(Split(csp, ';')) }

  function WithoutFrameAncestors(directives: seq<string>): seq<string> {
    if directives == [] then []
    else (if IsFrameAncestors(directives[0]) then [] else [directives[0]]) + WithoutFrameAncestors(directives[1..])
  }

  /** stripCSPFrameAncestors. */
  function Strip(csp: string): string { Join(WithoutFrameAncestors(Directives(csp)), "; ") }

  /** What a directive looks like once split out of a policy. */
  predicate Proper(d: string) { d != "" && Trimmed(d) && ';' !in d }

  predicate AllProper(ds: seq<string>) { forall i :: 0 <= i < |ds| ==> Proper(ds[i]) }

  lemma {:induction false} NonemptyAreProper(parts: seq<string>)
    requires forall i :: 0 <= i < |parts| ==> ';' !in parts[i]
    ensures AllProper(Nonempty(parts))
  {
    if parts != [] {
      TrimSpaceTrims(parts[0], ';');
      NonemptyAreProper(parts[1..]);
    }
  }

  lemma {:induction false} KeptAreProper(ds: seq<string>)
    requires AllProper(ds)
    ensures AllProper(WithoutFrameAncestors(ds))
  {
    if ds != [] { KeptAreProper(ds[1..]); }
  }

  lemma DirectivesAreProper(csp: string)
    ensures AllProper(Directives(csp)) && AllProper(WithoutFrameAncestors(Directives(csp)))
  {
    SplitPartsHaveNo(csp, ';');
    NonemptyAreProper(Split(csp, ';'));
    KeptAreProper(Directives(csp));
  }

  /** Printing and parsing again gives the same directives; a leading blank makes no difference. */
  lemma {:induction false} DirectivesOfJoin(ds: seq<string>)
    requires AllProper(ds)
    ensures Directives(Join(ds, "; ")) == ds
    ensures Directives(" " + Join(ds, "; ")) == ds
  {
    if ds == [] {
      BlankHasNoDirectives();
      assert " " + Join(ds, "; ") == " ";
    } else {
      var d := ds[0];
      if |ds| == 1 {
        SingleDirective(d);
      } else {
        var rest := " " + Join(ds[1..], "; ");
        DirectivesOfJoin(ds[1..]);
        assert Join(ds, "; ") == d + [';'] + rest;
        assert " " + Join(ds, "; ") == (" " + d) + [';'] + rest;
        hide Directives, Join;
        FirstDirective(d, rest);
        assert [d] + ds[1..] == ds;
      }
    }
  }

  lemma FirstDirective(d: string, rest: string)
    requires Proper(d)
    ensures Directives(d + [';'] + rest) == [d] + Directives(rest)
    ensures Directives((" " + d) + [';'] + rest) == [d] + Directives(rest)
  {
    hide Split, TrimSpace, Nonempty;
    TrimOfTrimmed(d);
    SplitFirst(d, ';', rest);
    SplitFirst(" " + d, ';', rest);
    NonemptyCons(d, Split(rest, ';'));
    NonemptyCons(" " + d, Split(rest, ';'));
  }

  lemma NonemptyCons(p: string, rest: seq<string>)
    ensures Nonempty([p] + rest) == (if TrimSpace(p) == "" then [] else [TrimSpace(p)]) + Nonempty(rest)
  {
    assert ([p] + rest)[1..] == rest;
  }

  lemma KeepCons(d: string, rest: seq<string>)
    ensures WithoutFrameAncestors([d] + rest) == (if IsFrameAncestors(d) then [] else [d]) + WithoutFrameAncestors(rest)
  {
    assert ([d] + rest)[1..] == rest;
  }

  lemma BlankHasNoDirectives()
    ensures Directives("") == [] && Directives(" ") == []
  {
    TrimOfTrimmed("");
    assert " " + "" == " ";
  }

  lemma SingleDirective(d: string)
    requires Proper(d)
    ensures Directives(d) == [d] && Directives(" " + d) == [d]
  {
    TrimOfTrimmed(d);
    NonemptyCons(d, []);
    NonemptyCons(" " + d, []);
    assert [d] + [] == [d] && [" " + d] + [] == [" " + d];
  }

  lemma {:induction false} FilterTwice(ds: seq<string>)
    ensures WithoutFrameAncestors(WithoutFrameAncestors(ds)) == WithoutFrameAncestors(ds)
  {
    if ds != [] {
      FilterTwice(ds[1..]);
      var rest := WithoutFrameAncestors(ds[1..]);
      KeepCons(ds[0], rest);
      assert [] + rest == rest;
    }
  }

  /** The directives of the result are those of the input minus frame-ancestors, in order and verbatim. */
  lemma StripKeepsTheRest(csp: string)
    ensures Directives(Strip(csp)) == WithoutFrameAncestors(Directives(csp))
  {
    DirectivesAreProper(csp);
    DirectivesOfJoin(WithoutFrameAncestors(Directives(csp)));
  }

  /** Stripping twice is stripping once, as strings. */
  lemma StripIsIdempotent(csp: string)
    ensures Strip(Strip(csp)) == Strip(csp)
  {
    StripKeepsTheRest(csp);
    FilterTwice(Directives(csp));
  }

  predicate AllForbidFraming(policy: string) {
    forall i :: 0 <= i < |Directives(policy)| ==> IsFrameAncestors(Directives(policy)[i])
  }

  /** The result is empty exactly when every directive forbids framing. */
  lemma {:induction false} StripEmptyIff(csp: string)
    ensures Strip(csp) == "" <==> AllForbidFraming(csp)
  {
    var kept := WithoutFrameAncestors(Directives(csp));
    DirectivesAreProper(csp);
    NothingKeptIff(Directives(csp));
    if kept != [] {
      assert Proper(kept[0]);
      assert |Join(kept, "; ")| >= |kept[0]|;
    }
  }

  lemma {:induction false} NothingKeptIff(ds: seq<string>)
    ensures WithoutFrameAncestors(ds) == [] <==> forall i :: 0 <= i < |ds| ==> IsFrameAncestors(ds[i])
  {
    if ds != [] {
      NothingKeptIff(ds[1..]);
      assert forall i :: 1 <= i < |ds| ==> ds[i] == ds[1..][i-1];
    }
  }

  // ----- Several policies in one header value -----

  /** A header value is a comma-separated list of policies; each is read as its directives. */
  function Policies(value: string): (ps: seq<seq<string>>)
    ensures ps != []
  {
    Each(Split(value, ','))
  }

  function Each(values: seq<string>): seq<seq<string>> {
    seq(|values|, i requires 0 <= i < |values| => Directives(values[i]))
  }

  /** Two lists of policies whose neighbouring ends are one policy. */
  function Glue(a: seq<seq<string>>, b: seq<seq<string>>): seq<seq<string>>
    requires a != [] && b != []
  {
    a[..|a|-1] + [a[|a|-1] + b[0]] + b[1..]
  }

  function FilterEach(ps: seq<seq<string>>): seq<seq<string>> {
    seq(|ps|, i requires 0 <= i < |ps| => WithoutFrameAncestors(ps[i]))
  }

  predicate Forbids(directives: seq<string>) { exists j :: 0 <= j < |directives| && IsFrameAncestors(directives[j]) }

  /** Some policy forbids framing. */
  predicate SomeForbids(ps: seq<seq<string>>) { exists i :: 0 <= i < |ps| && Forbids(ps[i]) }

  lemma {:induction false} SplitConcat(a: string, b: string, c: char)
    ensures Split(a + [c] + b, c) == Split(a, c) + Split(b, c)
  {
    hide Split;
    if c in a {
      SplitCut(a, c);
      var i := FirstIndex(a, c);
      var p, r := a[..i], a[i+1..];
      SplitConcat(r, b, c);
      assert (p + [c] + r) + [c] + b == p + [c] + (r + [c] + b);
      SplitFirst(p, c, r + [c] + b);
      assert [p] + (Split(r, c) + Split(b, c)) == ([p] + Split(r, c)) + Split(b, c);
    } else {
      SplitFirst(a, c, b);
      SplitUncut(a, c);
    }
  }

  /** The last part of one list and the first of another become one, with m between them. */
  function Bridge(p: seq<string>, m: string, q: seq<string>): seq<string>
    requires p != [] && q != []
  {
    p[..|p|-1] + [p[|p|-1] + m + q[0]] + q[1..]
  }

  lemma BridgeCons(x: string, p: seq<string>, m: string, q: seq<string>)
    requires p != [] && q != []
    ensures Bridge([x] + p, m, q) == [x] + Bridge(p, m, q)
  {
    assert ([x] + p)[..|p|] == [x] + p[..|p|-1];
  }

  lemma BridgeHead(a: string, m: string, x: string, q: seq<string>)
    ensures Bridge([a], m, [x] + q) == [a + m + x] + q
  {
    assert ([x] + q)[1..] == q;
  }

  lemma CutCons(p: string, c: char, r: string, m: string, b: string)
    requires c !in p && Split(r + m + b, c) == Bridge(Split(r, c), m, Split(b, c))
    ensures Split((p + [c] + r) + m + b, c) == Bridge([p] + Split(r, c), m, Split(b, c))
  {
    hide Split, Bridge;
    assert (p + [c] + r) + m + b == p + [c] + (r + m + b);
    SplitFirst(p, c, r + m + b);
    BridgeCons(p, Split(r, c), m, Split(b, c));
  }

  lemma UncutThrough(a: string, m: string, b: string, c: char)
    requires c !in m && c !in a
    ensures Split(a + m + b, c) == Bridge([a], m, Split(b, c))
  {
    hide Split, Bridge;
    if c in b {
      SplitCut(b, c);
      var i := FirstIndex(b, c);
      var p, r := b[..i], b[i+1..];
      assert a + m + (p + [c] + r) == (a + m + p) + [c] + r;
      SplitFirst(a + m + p, c, r);
      BridgeHead(a, m, p, Split(r, c));
    } else {
      SplitUncut(b, c);
      SplitUncut(a + m + b, c);
      BridgeHead(a, m, b, []);
      assert [b] + [] == [b] && [a + m + b] + [] == [a + m + b];
    }
  }

  /** Joining by something without the separator bridges the neighbouring parts. */
  lemma {:induction false} SplitThrough(a: string, m: string, b: string, c: char)
    requires c !in m
    ensures Split(a + m + b, c) == Bridge(Split(a, c), m, Split(b, c))
  {
    hide Split, Bridge;
    if c in a {
      SplitCut(a, c);
      var i := FirstIndex(a, c);
      SplitThrough(a[i+1..], m, b, c);
      CutCons(a[..i], c, a[i+1..], m, b);
    } else {
      SplitUncut(a, c);
      UncutThrough(a, m, b, c);
    }
  }

  lemma Assoc(a: seq<string>, b: seq<string>, c: seq<string>)
    ensures (a + b) + c == a + (b + c)
  {
  }

  lemma {:induction false} NonemptyConcat(p: seq<string>, q: seq<string>)
    ensures Nonempty(p + q) == Nonempty(p) + Nonempty(q)
  {
    if p == [] {
      assert p + q == q;
    } else {
      hide Nonempty, TrimSpace;
      var x, r := p[0], p[1..];
      NonemptyConcat(r, q);
      NonemptyCons(x, r);
      assert p == [x] + r;
      Assoc([x], r, q);
      NonemptyCons(x, r + q);
      Assoc(if TrimSpace(x) == "" then [] else [TrimSpace(x)], Nonempty(r), Nonempty(q));
    }
  }

  lemma DirectivesConcat(a: string, b: string)
    ensures Directives(a + ";" + b) == Directives(a) + Directives(b)
  {
    SplitConcat(a, b, ';');
    NonemptyConcat(Split(a, ';'), Split(b, ';'));
  }

  /** A semicolon joins the last policy before it and the first one after it. */
  lemma PoliciesConcat(a: string, b: string)
    ensures Policies(a + ";" + b) == Glue(Policies(a), Policies(b))
  {
    hide Directives, Split;
    var p, q := Split(a, ','), Split(b, ',');
    SplitThrough(a, ";", b, ',');
    DirectivesConcat(p[|p|-1], q[0]);
    assert Policies(a + ";" + b) == Glue(Policies(a), Policies(b));
  }

  // Blanks at either end of a value, and hence trimming, make no difference.

  lemma TrimIgnoresBlanks(x: char, s: string)
    requires IsSpace(x)
    ensures TrimSpace([x] + s) == TrimSpace(s) == TrimSpace(s + [x])
  {
    assert ([x] + s)[1..] == s;
    TrimLeftOfAppend(s, x);
    var t := TrimLeft(s);
    if t == "" { assert TrimLeft("" + [x]) == TrimLeft([x]) == ""; } else { assert (t + [x])[..|t|] == t; }
  }

  lemma {:induction false} TrimLeftOfAppend(s: string, x: char)
    requires IsSpace(x)
    ensures TrimLeft(s + [x]) == if TrimLeft(s) == "" then "" else TrimLeft(s) + [x]
  {
    if s == "" {
      assert (s + [x])[1..] == "";
    } else if IsSpace(s[0]) {
      assert (s + [x])[1..] == s[1..] + [x];
      TrimLeftOfAppend(s[1..], x);
    }
  }

  lemma SplitPadded(x: char, s: string, c: char)
    requires x != c
    ensures var p := Split(s, c);
      && Split([x] + s, c) == [[x] + p[0]] + p[1..]
      && Split(s + [x], c) == p[..|p|-1] + [p[|p|-1] + [x]]
  {
    hide Split, Bridge;
    var p := Split(s, c);
    SplitUncut("", c);
    SplitThrough("", [x], s, c);
    SplitThrough(s, [x], "", c);
    PadEnds([x], s);
    BridgeEnds(p, [x]);
  }

  lemma PadEnds(m: string, s: string)
    ensures "" + m + s == m + s && s + m + "" == s + m
  {
  }

  lemma BridgeEnds(p: seq<string>, m: string)
    requires p != []
    ensures Bridge([""], m, p) == [m + p[0]] + p[1..] && Bridge(p, m, [""]) == p[..|p|-1] + [p[|p|-1] + m]
  {
    assert "" + m + p[0] == m + p[0] && p[|p|-1] + m + "" == p[|p|-1] + m;
  }

  lemma NonemptyEnds(p: seq<string>, first: string, last: string)
    requires p != [] && TrimSpace(first) == TrimSpace(p[0]) && TrimSpace(last) == TrimSpace(p[|p|-1])
    ensures Nonempty([first] + p[1..]) == Nonempty(p) == Nonempty(p[..|p|-1] + [last])
  {
    hide TrimSpace;
    NonemptyCons(first, p[1..]);
    var front := p[..|p|-1];
    NonemptyConcat(front, [last]);
    NonemptyConcat(front, [p[|p|-1]]);
    assert front + [p[|p|-1]] == p;
    NonemptyCons(last, []);
    NonemptyCons(p[|p|-1], []);
    assert [last] + [] == [last] && [p[|p|-1]] + [] == [p[|p|-1]];
  }

  lemma DirectivesPadded(x: char, s: string)
    requires IsSpace(x)
    ensures Directives([x] + s) == Directives(s) == Directives(s + [x])
  {
    hide TrimSpace, Nonempty, Split;
    var p := Split(s, ';');
    SplitPadded(x, s, ';');
    TrimIgnoresBlanks(x, p[0]);
    TrimIgnoresBlanks(x, p[|p|-1]);
    NonemptyEnds(p, [x] + p[0], p[|p|-1] + [x]);
  }

  lemma PoliciesPadded(x: char, s: string)
    requires IsSpace(x)
    ensures Policies([x] + s) == Policies(s) == Policies(s + [x])
  {
    hide Directives, Split;
    var p := Split(s, ',');
    SplitPadded(x, s, ',');
    DirectivesPadded(x, p[0]);
    DirectivesPadded(x, p[|p|-1]);
  }

  lemma {:induction false} PoliciesOfTrimLeft(s: string)
    ensures Policies(TrimLeft(s)) == Policies(s)
  {
    hide Policies;
    if s != "" && IsSpace(s[0]) {
      PoliciesOfTrimLeft(s[1..]);
      PoliciesPadded(s[0], s[1..]);
      assert [s[0]] + s[1..] == s;
    }
  }

  lemma {:induction false} PoliciesOfTrimRight(s: string)
    ensures Policies(TrimRight(s)) == Policies(s)
  {
    hide Policies;
    if s != "" && IsSpace(s[|s|-1]) {
      PoliciesOfTrimRight(s[..|s|-1]);
      PoliciesPadded(s[|s|-1], s[..|s|-1]);
      assert s[..|s|-1] + [s[|s|-1]] == s;
    }
  }

  lemma PoliciesOfTrim(s: string)
    ensures Policies(TrimSpace(s)) == Policies(s)
  {
    PoliciesOfTrimLeft(s);
    PoliciesOfTrimRight(TrimLeft(s));
  }

  // The value and its stripped form, part by part.

  predicate Drops(part: string) { TrimSpace(part) == "" || IsFrameAncestors(TrimSpace(part)) }

  function Glued(parts: seq<string>): (r: seq<seq<string>>)
    ensures r != []
  {
    if parts == [] then [[]] else Glue(Policies(parts[0]), Glued(parts[1..]))
  }

  function GluedKept(parts: seq<string>): (r: seq<seq<string>>)
    ensures r != []
  {
    if parts == [] then [[]]
    else if Drops(parts[0]) then GluedKept(parts[1..])
    else Glue(Policies(parts[0]), GluedKept(parts[1..]))
  }

  lemma GlueUnit(a: seq<seq<string>>)
    requires a != []
    ensures Glue([[]], a) == a == Glue(a, [[]])
  {
    assert [] + a[0] == a[0] && a[|a|-1] + [] == a[|a|-1];
  }

  lemma {:induction false} PoliciesByParts(v: string)
    ensures Policies(v) == Glued(Split(v, ';'))
  {
    hide Policies, Glue;
    if ';' in v {
      var i := FirstIndex(v, ';');
      PoliciesByParts(v[i+1..]);
      PoliciesConcat(v[..i], v[i+1..]);
      assert v == v[..i] + ";" + v[i+1..];
    } else {
      GlueUnit(Policies(v));
      assert [v][1..] == [];
    }
  }

  lemma NoPolicies()
    ensures Policies("") == [[]]
  {
    BlankHasNoDirectives();
  }

  lemma {:induction false} KeptByParts(parts: seq<string>)
    ensures Policies(Join(WithoutFrameAncestors(Nonempty(parts)), "; ")) == GluedKept(parts)
  {
    if parts == [] {
      NoPolicies();
    } else {
      KeptByParts(parts[1..]);
      hide Policies, Glue, TrimSpace, IsFrameAncestors;
      var t, kept := TrimSpace(parts[0]), WithoutFrameAncestors(Nonempty(parts[1..]));
      KeepCons(t, Nonempty(parts[1..]));
      assert [] + Nonempty(parts[1..]) == Nonempty(parts[1..]) && [] + kept == kept;
      if !Drops(parts[0]) { KeptOnce(parts[0], kept); }
    }
  }

  lemma KeptOnce(part: string, kept: seq<string>)
    ensures Policies(Join([TrimSpace(part)] + kept, "; ")) == Glue(Policies(part), Policies(Join(kept, "; ")))
  {
    hide Policies, Glue, TrimSpace;
    PoliciesOfTrim(part);
    var t, rest := TrimSpace(part), Join(kept, "; ");
    if kept == [] {
      NoPolicies();
      GlueUnit(Policies(part));
    } else {
      assert ([t] + kept)[1..] == kept;
      assert Join([t] + kept, "; ") == t + ";" + ([' '] + rest);
      PoliciesConcat(t, [' '] + rest);
      PoliciesPadded(' ', rest);
    }
  }

  lemma {:induction false} WithoutConcat(a: seq<string>, b: seq<string>)
    ensures WithoutFrameAncestors(a + b) == WithoutFrameAncestors(a) + WithoutFrameAncestors(b)
  {
    if a == [] {
      assert a + b == b;
    } else {
      hide WithoutFrameAncestors, IsFrameAncestors;
      var x, r := a[0], a[1..];
      WithoutConcat(r, b);
      KeepCons(x, r);
      assert a == [x] + r;
      Assoc([x], r, b);
      KeepCons(x, r + b);
      Assoc(if IsFrameAncestors(x) then [] else [x], WithoutFrameAncestors(r), WithoutFrameAncestors(b));
    }
  }

  lemma FilterGlue(a: seq<seq<string>>, b: seq<seq<string>>)
    requires a != [] && b != []
    ensures FilterEach(Glue(a, b)) == Glue(FilterEach(a), FilterEach(b))
  {
    hide WithoutFrameAncestors;
    WithoutConcat(a[|a|-1], b[0]);
  }

  lemma {:induction false} FilterNothing(ds: seq<string>)
    requires !Forbids(ds)
    ensures WithoutFrameAncestors(ds) == ds
  {
    if ds != [] {
      assert !IsFrameAncestors(ds[0]);
      assert forall j :: 0 <= j < |ds| - 1 ==> ds[1..][j] == ds[j+1];
      FilterNothing(ds[1..]);
    }
  }

  lemma NoneForbidsAfterFilter(ps: seq<seq<string>>)
    ensures !SomeForbids(FilterEach(ps)) && (!SomeForbids(ps) ==> FilterEach(ps) == ps)
  {
    hide WithoutFrameAncestors;
    forall i | 0 <= i < |ps| ensures !Forbids(FilterEach(ps)[i]) { NoneLeft(ps[i]); }
    if !SomeForbids(ps) {
      forall i | 0 <= i < |ps| ensures WithoutFrameAncestors(ps[i]) == ps[i] { FilterNothing(ps[i]); }
    }
  }

  lemma ForbidsConcat(a: seq<string>, b: seq<string>)
    ensures Forbids(a + b) <==> Forbids(a) || Forbids(b)
  {
    if Forbids(b) {
      var j :| 0 <= j < |b| && IsFrameAncestors(b[j]);
      assert (a + b)[|a| + j] == b[j];
    }
    if Forbids(a) {
      var j :| 0 <= j < |a| && IsFrameAncestors(a[j]);
      assert (a + b)[j] == a[j];
    }
  }

  lemma GlueForbids(a: seq<seq<string>>, b: seq<seq<string>>)
    requires a != [] && b != []
    ensures SomeForbids(Glue(a, b)) <==> SomeForbids(a) || SomeForbids(b)
  {
    hide Forbids;
    var g := Glue(a, b);
    ForbidsConcat(a[|a|-1], b[0]);
    assert forall i :: 0 <= i < |a| - 1 ==> g[i] == a[i];
    assert g[|a|-1] == a[|a|-1] + b[0];
    assert forall i :: 1 <= i < |b| ==> g[|a| - 1 + i] == b[i];
    if SomeForbids(b) {
      var i :| 0 <= i < |b| && Forbids(b[i]);
      assert Forbids(g[|a| - 1 + i]);
    }
    if SomeForbids(a) {
      var i :| 0 <= i < |a| && Forbids(a[i]);
      assert Forbids(g[i]);
    }
    if SomeForbids(g) {
      var i :| 0 <= i < |g| && Forbids(g[i]);
      if i >= |a| { assert g[i] == b[i - |a| + 1]; }
    }
  }

  /** A part without a comma lies within one policy. */
  lemma PartOfOnePolicy(part: string)
    requires ';' !in part
    ensures |Policies(part)| == 1 <==> ',' !in part
    ensures TrimSpace(part) == "" ==> ',' !in part
    ensures ',' !in part ==>
      Policies(part) == [if TrimSpace(part) == "" then [] else [TrimSpace(part)]]
      && SomeForbids(Policies(part)) == (TrimSpace(part) != "" && IsFrameAncestors(TrimSpace(part)))
  {
    if TrimSpace(part) == "" { BlankHasNoComma(part); }
    CommasSeparate(part);
    if ',' !in part { OneDirective(part); }
    hide IsFrameAncestors, TrimSpace, Policies, SomeForbids;
    NoneForbidden();
    OneForbidden(TrimSpace(part));
  }

  lemma CommasSeparate(part: string)
    ensures |Policies(part)| == 1 <==> ',' !in part
  {
    if ',' in part { SplitCut(part, ','); } else { SplitUncut(part, ','); }
  }

  lemma OneDirective(part: string)
    requires ';' !in part && ',' !in part
    ensures Policies(part) == [if TrimSpace(part) == "" then [] else [TrimSpace(part)]]
  {
    hide TrimSpace;
    SplitUncut(part, ',');
    SplitUncut(part, ';');
    NonemptyCons(part, []);
    assert [part] + [] == [part];
    var ds := if TrimSpace(part) == "" then [] else [TrimSpace(part)];
    assert ds + Nonempty([]) == ds;
    assert Policies(part) == [Directives(part)];
  }

  lemma NoneForbidden()
    ensures !SomeForbids([[]])
  {
  }

  lemma OneForbidden(d: string)
    ensures SomeForbids([[d]]) <==> IsFrameAncestors(d)
  {
    hide IsFrameAncestors;
    var ds := [d];
    assert ds[0] == d;
    if IsFrameAncestors(d) {
      assert Forbids(ds);
      assert [ds][0] == ds;
    }
  }

  lemma BlankHasNoComma(part: string)
    requires TrimSpace(part) == ""
    ensures ',' !in part
  {
    PoliciesOfTrim(part);
    NoPolicies();
    assert |Split(part, ',')| == |Policies(part)| == 1;
  }

  /** The part reaches from one policy into another, and frame-ancestors is in it. */
  predicate Mixed(part: string) {
    ',' in part && (IsFrameAncestors(TrimSpace(part)) || SomeForbids(Policies(part)))
  }

  predicate NoSemicolons(parts: seq<string>) { forall i :: 0 <= i < |parts| ==> ';' !in parts[i] }

  lemma {:induction false} KeptIfUnmixed(parts: seq<string>)
    requires NoSemicolons(parts) && forall i :: 0 <= i < |parts| ==> !Mixed(parts[i])
    ensures GluedKept(parts) == FilterEach(Glued(parts))
  {
    if parts != [] {
      hide Policies, TrimSpace, IsFrameAncestors, SomeForbids, Glue;
      var x, rest := parts[0], Glued(parts[1..]);
      KeptIfUnmixed(parts[1..]);
      FilterGlue(Policies(x), rest);
      PartOfOnePolicy(x);
      assert !Mixed(x);
      if Drops(x) {
        FilterOfDropped(x);
        GlueUnit(FilterEach(rest));
      } else {
        NoneForbidsAfterFilter(Policies(x));
      }
    }
  }

  lemma FilterOfDropped(x: string)
    requires ';' !in x && ',' !in x && Drops(x)
    ensures FilterEach(Policies(x)) == [[]]
  {
    hide TrimSpace, IsFrameAncestors, Policies;
    PartOfOnePolicy(x);
    KeepCons(TrimSpace(x), []);
    assert [TrimSpace(x)] + [] == [TrimSpace(x)] && [] + WithoutFrameAncestors([]) == [];
  }

  lemma {:induction false} KeptForbidsIff(parts: seq<string>)
    ensures SomeForbids(GluedKept(parts)) <==> exists i :: 0 <= i < |parts| && !Drops(parts[i]) && SomeForbids(Policies(parts[i]))
  {
    hide Policies, Drops, Glue;
    if parts == [] {
      assert !SomeForbids([[]]);
    } else {
      KeptForbidsIff(parts[1..]);
      hide SomeForbids;
      assert forall i :: 1 <= i < |parts| ==> parts[i] == parts[1..][i-1];
      assert forall i :: 0 <= i < |parts[1..]| ==> parts[1..][i] == parts[i+1];
      if !Drops(parts[0]) { GlueForbids(Policies(parts[0]), GluedKept(parts[1..])); }
    }
  }

  lemma {:induction false} FewerPoliciesIff(parts: seq<string>)
    requires NoSemicolons(parts)
    ensures |GluedKept(parts)| <= |Glued(parts)|
    ensures |GluedKept(parts)| < |Glued(parts)| <==> exists i :: 0 <= i < |parts| && Drops(parts[i]) && ',' in parts[i]
  {
    if parts != [] {
      hide Policies, Drops;
      FewerPoliciesIff(parts[1..]);
      assert forall i :: 1 <= i < |parts| ==> parts[i] == parts[1..][i-1];
      assert forall i :: 0 <= i < |parts[1..]| ==> parts[1..][i] == parts[i+1];
      PartOfOnePolicy(parts[0]);
      assert |Policies(parts[0])| >= 1;
    }
  }

  lemma ByParts(v: string)
    ensures Policies(v) == Glued(Split(v, ';')) && Policies(Strip(v)) == GluedKept(Split(v, ';')) && NoSemicolons(Split(v, ';'))
  {
    PoliciesByParts(v);
    KeptByParts(Split(v, ';'));
    SplitPartsHaveNo(v, ';');
  }

  /** A part that does not begin with frame-ancestors has a frame-ancestors directive further on. */
  predicate ForbidsBehindComma(v: string) {
    var parts := Split(v, ';');
    exists i :: 0 <= i < |parts| && !Drops(parts[i]) && SomeForbids(Policies(parts[i]))
  }

  predicate Unmixed(v: string) {
    var parts := Split(v, ';');
    forall i :: 0 <= i < |parts| ==> !Mixed(parts[i])
  }

  /** Some policy of the result still forbids framing if and only if a part that does not begin with
      frame-ancestors carries one behind a comma. */
  lemma StillForbidsIff(v: string)
    ensures SomeForbids(Policies(Strip(v))) <==> ForbidsBehindComma(v)
  {
    hide Strip, Policies, SomeForbids, Drops;
    ByParts(v);
    KeptForbidsIff(Split(v, ';'));
  }

  /** A policy is lost if and only if a part that begins with frame-ancestors reaches behind a comma. */
  lemma PolicyLostIff(v: string)
    ensures var parts := Split(v, ';');
      && |Policies(Strip(v))| <= |Policies(v)|
      && (|Policies(Strip(v))| < |Policies(v)| <==> exists i :: 0 <= i < |parts| && Drops(parts[i]) && ',' in parts[i])
  {
    ByParts(v);
    FewerPoliciesIff(Split(v, ';'));
  }

  /** Stripping takes frame-ancestors out of every policy of the value, and nothing else, if and only if no
      semicolon-separated part holds both a comma and a frame-ancestors directive. */
  lemma PoliciesKeptIff(v: string)
    ensures Policies(Strip(v)) == FilterEach(Policies(v)) <==> Unmixed(v)
  {
    ByParts(v);
    var parts := Split(v, ';');
    if forall i :: 0 <= i < |parts| ==> !Mixed(parts[i]) {
      KeptIfUnmixed(parts);
    } else {
      var i :| 0 <= i < |parts| && Mixed(parts[i]);
      hide Split, Policies, Strip, IsFrameAncestors, TrimSpace, Glued, GluedKept;
      NoneForbidsAfterFilter(Policies(v));
      PartOfOnePolicy(parts[i]);
      KeptForbidsIff(parts);
      FewerPoliciesIff(parts);
      assert |FilterEach(Policies(v))| == |Policies(v)|;
    }
  }

  /** A second policy that forbids framing: the value comes back as it was, still forbidding it. */
  lemma SecondPolicyStillForbids(a: string, b: string)
    requires ';' !in a && ';' !in b && !Drops(a + "," + b) && TrimSpace(b) != "" && IsFrameAncestors(TrimSpace(b)) && ',' !in b
    ensures Strip(a + "," + b) == TrimSpace(a + "," + b) && SomeForbids(Policies(Strip(a + "," + b)))
  {
    hide TrimSpace, IsFrameAncestors;
    var v := a + "," + b;
    assert Split(v, ';') == [v];
    NonemptyCons(v, []);
    assert [v] + [] == [v];
    var t := TrimSpace(v);
    KeepCons(t, []);
    assert Strip(v) == t by { assert [t] + [] == [t]; }
    PoliciesOfTrim(v);
    SplitConcat(a, b, ',');
    var p := Split(a, ',');
    PartOfOnePolicy(b);
    hide SomeForbids, Directives, Forbids;
    assert Policies(v) == Each(p) + Policies(b);
    LastForbids(Each(p), Policies(b));
  }

  lemma LastForbids(a: seq<seq<string>>, b: seq<seq<string>>)
    requires SomeForbids(b)
    ensures SomeForbids(a + b)
  {
    var i :| 0 <= i < |b| && Forbids(b[i]);
    assert (a + b)[|a| + i] == b[i];
  }

  /** A second policy behind one that forbids framing is lost with it. */
  lemma SecondPolicyIsLost(a: string, b: string)
    requires ';' !in a && ';' !in b && IsFrameAncestors(TrimSpace(a + "," + b))
    ensures Strip(a + "," + b) == "" && |Policies(a + "," + b)| >= 2
  {
    hide TrimSpace, IsFrameAncestors;
    var v := a + "," + b;
    assert Split(v, ';') == [v];
    NonemptyCons(v, []);
    assert [v] + [] == [v];
    KeepCons(TrimSpace(v), []);
    assert [TrimSpace(v)] + [] == [TrimSpace(v)];
    SplitConcat(a, b, ',');
  }

  lemma {:induction false} UntilSpaceStops(word: string, rest: string)
    requires forall i :: 0 <= i < |word| ==> !IsSpace(word[i])
    ensures UntilSpace(word + " " + rest) == word
  {
    if word == "" {
      assert word + " " + rest == " " + rest;
    } else {
      assert (word + " " + rest)[1..] == word[1..] + " " + rest;
      UntilSpaceStops(word[1..], rest);
    }
  }

  lemma FirstWord(word: string, rest: string)
    requires word != "" && forall i :: 0 <= i < |word| ==> !IsSpace(word[i])
    ensures FirstField(word + " " + rest) == word
  {
    UntilSpaceStops(word, rest);
  }

  /** A directive is a frame-ancestors directive if and only if its first word is that name in any letter case. */
  lemma FrameAncestorsIff(word: string, rest: string)
    requires word != "" && forall i :: 0 <= i < |word| ==> !IsSpace(word[i]) && word[i] < '\U{0080}'
    ensures IsFrameAncestors(word + " " + rest) <==> ToLower(word) == "frame-ancestors"
    ensures IsFrameAncestors(word) <==> ToLower(word) == "frame-ancestors"
  {
    hide FirstField;
    FirstWord(word, rest);
    OnlyWord(word);
    FoldsIff(word);
  }

  lemma OnlyWord(word: string)
    requires word != "" && forall i :: 0 <= i < |word| ==> !IsSpace(word[i])
    ensures FirstField(word) == word
  {
    OnlyWordUntil(word);
  }

  lemma {:induction false} OnlyWordUntil(word: string)
    requires forall i :: 0 <= i < |word| ==> !IsSpace(word[i])
    ensures UntilSpace(word) == word
  {
    if word != "" { OnlyWordUntil(word[1..]); }
  }

  lemma FoldsIff(word: string)
    requires forall i :: 0 <= i < |word| ==> word[i] < '\U{0080}'
    ensures EqualFold(word, "frame-ancestors") <==> ToLower(word) == "frame-ancestors"
  {
    var name := "frame-ancestors";
    if |word| == |name| {
      forall i | 0 <= i < |word| ensures FoldsTo(word[i], name[i]) <==> ToLower(word)[i] == name[i] {
        FoldsOneIff(word[i], name[i]);
      }
    }
  }

  lemma FoldsOneIff(c: char, l: char)
    requires c < '\U{0080}' && (l == '-' || 'a' <= l <= 'z')
    ensures FoldsTo(c, l) <==> LowerRune(c) == l
  {
  }

  const FIRST := "img-src a"
  const SECOND := "frame-ancestors b"

  lemma ExampleStart(rest: string)
    ensures FirstField(FIRST + rest) == "img-src" && FirstField(SECOND + rest) == "frame-ancestors"
  {
    FirstWord("img-src", "a" + rest);
    FirstWord("frame-ancestors", "b" + rest);
    assert "img-src" + " " + ("a" + rest) == FIRST + rest;
    assert "frame-ancestors" + " " + ("b" + rest) == SECOND + rest;
  }

  lemma SecondForbids()
    ensures IsFrameAncestors(SECOND)
  {
    hide FirstField;
    ExampleStart("");
    assert SECOND + "" == SECOND;
  }

  lemma NoSeparators()
    ensures ';' !in SECOND && ',' !in SECOND && ';' !in FIRST
  {
  }

  /** Both happen: "img-src a, frame-ancestors b" comes back as it was; the other way round both are lost. */
  lemma CommaExamples()
    ensures var v := FIRST + "," + " " + SECOND; Strip(v) == v && SomeForbids(Policies(Strip(v)))
    ensures var v := SECOND + "," + " " + FIRST; Strip(v) == "" && |Policies(v)| >= 2
  {
    hide Strip, Policies, SomeForbids, FirstField, TrimSpace;
    var v, w := FIRST + "," + (" " + SECOND), SECOND + "," + (" " + FIRST);
    assert v == FIRST + "," + " " + SECOND && w == SECOND + "," + " " + FIRST;
    SecondForbids();
    NoSeparators();
    ExampleStart("," + (" " + SECOND));
    ExampleStart("," + (" " + FIRST));
    assert v == FIRST + ("," + (" " + SECOND)) && w == SECOND + ("," + (" " + FIRST));
    TrimOfTrimmed(SECOND);
    TrimOfTrimmed(v);
    TrimOfTrimmed(w);
    SecondPolicyStillForbids(FIRST, " " + SECOND);
    SecondPolicyIsLost(SECOND, " " + FIRST);
  }

  // ----- The header map -----

  const BLOCKING: set<string> := {
    "x-frame-options", "cross-origin-opener-policy", "cross-origin-embedder-policy", "cross-origin-resource-policy"}

  const POLICIES: set<string> := {"content-security-policy", "content-security-policy-report-only"}

  predicate Dropped(key: string, value: string) {
    ToLower(key) in BLOCKING || (ToLower(key) in POLICIES && Strip(value) == "")
  }

  function Rewritten(key: string, value: string): string {
    if ToLower(key) in POLICIES then Strip(value) else value
  }

  function StripHeaders(h: map<string, string>): map<string, string> {
    map k | k in h && !Dropped(k, h[k]) :: Rewritten(k, h[k])
  }

  /** Exactly the blocking headers go, and the policy headers every semicolon-separated part of which begins
      with frame-ancestors. What stays of a policy header is its policies without their frame-ancestors
      directives, and nothing less or more, if and only if no such part is mixed. */
  lemma HeadersKeptIff(h: map<string, string>, key: string)
    ensures key in StripHeaders(h) <==>
      && key in h
      && ToLower(key) != "x-frame-options" && ToLower(key) != "cross-origin-opener-policy"
      && ToLower(key) != "cross-origin-embedder-policy" && ToLower(key) != "cross-origin-resource-policy"
      && ((ToLower(key) == "content-security-policy" || ToLower(key) == "content-security-policy-report-only") ==> !AllForbidFraming(h[key]))
    ensures ToLower(key) in POLICIES <==> ToLower(key) == "content-security-policy" || ToLower(key) == "content-security-policy-report-only"
    ensures key in StripHeaders(h) && ToLower(key) in POLICIES ==>
      (Policies(StripHeaders(h)[key]) == FilterEach(Policies(h[key])) <==> Unmixed(h[key]))
  {
    hide Strip, Policies, FilterEach, AllForbidFraming, ToLower, Unmixed;
    if key in h {
      PoliciesKeptIff(h[key]);
      StripEmptyIff(h[key]);
    }
  }

  /** Afterwards no blocking header is left; a policy header still forbids framing exactly when, in the
      original, a part that does not begin with frame-ancestors carried one behind a comma; every other
      header is untouched, and a second pass changes nothing. */
  lemma BlockedFramingIff(h: map<string, string>, key: string)
    ensures key in StripHeaders(h) ==> ToLower(key) !in BLOCKING
    ensures key in StripHeaders(h) && ToLower(key) in POLICIES ==>
      (SomeForbids(Policies(StripHeaders(h)[key])) <==> ForbidsBehindComma(h[key]))
    ensures ToLower(key) !in BLOCKING + POLICIES ==>
      (key in StripHeaders(h) <==> key in h) && (key in h ==> StripHeaders(h)[key] == h[key])
    ensures StripHeaders(StripHeaders(h)) == StripHeaders(h)
  {
    hide Strip, Policies, SomeForbids, ForbidsBehindComma, ToLower;
    if key in h { StillForbidsIff(h[key]); }
    forall k | k in h ensures Strip(Strip(h[k])) == Strip(h[k]) { StripIsIdempotent(h[k]); }
  }

  lemma {:induction false} NoneLeft(ds: seq<string>)
    ensures forall i :: 0 <= i < |WithoutFrameAncestors(ds)| ==> !IsFrameAncestors(WithoutFrameAncestors(ds)[i])
  {
    if ds != [] { NoneLeft(ds[1..]); }
  }

  // ----- The loops -----

  /** What the loop still has to keep. */
  function Rest(parts: seq<string>, i: nat): seq<string>
    requires i <= |parts|
  {
    WithoutFrameAncestors(Nonempty(parts[i..]))
  }

  lemma RestStep(parts: seq<string>, i: nat)
    requires i < |parts|
    ensures var trimmed := TrimSpace(parts[i]);
      Rest(parts, i) == if trimmed == "" || IsFrameAncestors(trimmed) then Rest(parts, i + 1) else [trimmed] + Rest(parts, i + 1)
  {
    hide TrimSpace, IsFrameAncestors, Nonempty, WithoutFrameAncestors;
    var trimmed, later := TrimSpace(parts[i]), Nonempty(parts[i+1..]);
    assert parts[i..] == [parts[i]] + parts[i+1..];
    NonemptyCons(parts[i], parts[i+1..]);
    KeepCons(trimmed, later);
    assert [] + later == later && [] + WithoutFrameAncestors(later) == WithoutFrameAncestors(later);
  }

  lemma KeepStep(parts: seq<string>, i: nat, kept: seq<string>)
    requires i < |parts|
    ensures var trimmed := TrimSpace(parts[i]);
      kept + Rest(parts, i)
        == if trimmed == "" || IsFrameAncestors(trimmed) then kept + Rest(parts, i + 1) else kept + [trimmed] + Rest(parts, i + 1)
  {
    hide TrimSpace, IsFrameAncestors, Rest;
    RestStep(parts, i);
    Assoc(kept, [TrimSpace(parts[i])], Rest(parts, i + 1));
  }

  lemma RestEnds(parts: seq<string>)
    ensures Rest(parts, 0) == WithoutFrameAncestors(Nonempty(parts)) && Rest(parts, |parts|) == []
  {
    assert parts[0..] == parts;
  }

  method StripCSPFrameAncestors(csp: string) returns (r: string)
    ensures r == Strip(csp)
  {
    if csp == "" {
      BlankHasNoDirectives();
      return "";
    }
    hide Nonempty, WithoutFrameAncestors, Rest, Split, TrimSpace, IsFrameAncestors, Join;
    var parts := Split(csp, ';');
    var kept := [];
    RestEnds(parts);
    for i := 0 to |parts|
      invariant Rest(parts, 0) == kept + Rest(parts, i)
    {
      KeepStep(parts, i, kept);
      var trimmed := TrimSpace(parts[i]);
      if trimmed == "" { continue; }
      if IsFrameAncestors(trimmed) { continue; }
      kept := kept + [trimmed];
    }
    assert kept + [] == kept;
    return Join(kept, "; ");
  }

  class HeaderMap {
    var h: map<string, string>

    method StripFrameBlockingHeaders()
      modifies this
      ensures h == StripHeaders(old(h))
    {
      hide Strip, ToLower;
      if h == map[] { return; }
      var todo := h.Keys;
      while todo != {}
        invariant todo <= old(h).Keys
        invariant h == map k | k in old(h) && (k in todo || !Dropped(k, old(h)[k])) :: if k in todo then old(h)[k] else Rewritten(k, old(h)[k])
        decreases |todo|
      {
        var key :| key in todo;
        todo := todo - {key};
        var lower := ToLower(key);
        if lower in BLOCKING {
          h := h - {key};
        } else if lower in POLICIES {
          var stripped := StripCSPFrameAncestors(h[key]);
          if stripped != "" { h := h[key := stripped]; } else { h := h - {key}; }
        }
      }
    }
  }
}
