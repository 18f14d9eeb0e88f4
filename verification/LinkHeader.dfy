/** The `Link` header: its parser and printer (pkg/models/pagination.go) and the client's
    regular-expression shortcut (pkg/client/helpers.go). */
module LinkHeader {
  import opened Text

  const LINK_NEXT: string := "rel=\"next\""
  const LINK_LAST: string := "rel=\"last\""
  const SEPARATORS: set<char> := {',', ';'}
  const BRACKETS: set<char> := {'<', '>'}
  const SPECIALS: set<char> := {',', ';', '<', '>'}

  /** The two targets that the connector keeps of a header. */
  datatype Links = Links(next: string, last: string)

  const NO_LINKS: Links := Links("", "")

  /** How a parse ends.  `Panicked` is the run-time error of indexing before the first part. */
  datatype Outcome = Accepted | Malformed | Panicked

  // ---- what the parser computes ----

  /** Some rel sits in the first part, which has no part before it to hold a target. */
  predicate RelFirst(parts: seq<string>)
    requires |parts| >= 1
  {
    Contains(parts[0], LINK_NEXT) || Contains(parts[0], LINK_LAST)
  }

  /** The part before the last part that contains `rel`, or `fallback` when no part does. */
  function Target(parts: seq<string>, rel: string, fallback: string): string {
    if |parts| < 2 then fallback
    else if Contains(parts[|parts| - 1], rel) then Delete(parts[|parts| - 2], BRACKETS)
    else Target(parts[..|parts| - 1], rel, fallback)
  }

  function Unmarshal(text: string, prior: Links): (Outcome, Links) {
    if text == "" then (Accepted, prior)
    else
      var parts := Split(text, SEPARATORS);
      if |parts| < 2 || |parts| == 3 then (Malformed, prior)
      else if RelFirst(parts) then (Panicked, prior)
      else
        var l := Links(Target(parts, LINK_NEXT, prior.next), Target(parts, LINK_LAST, prior.last));
        (if l.next == l.last && |parts| == 4 then Malformed else Accepted, l)
  }

  function Marshal(l: Links): string {
    var last := "<" + l.last + ">; " + LINK_LAST;
    if l.next != "" then "<" + l.next + ">; " + LINK_NEXT + "," + last else last
  }

  class Link {
    var Next: string
    var Last: string

    constructor ()
      ensures Value() == NO_LINKS
    {
      Next, Last := "", "";
    }

    ghost function Value(): Links
      reads this
    {
      Links(Next, Last)
    }

    method UnmarshalText(text: string) returns (outcome: Outcome)
      modifies this
      ensures (outcome, Value()) == Unmarshal(text, old(Value()))
    {
      if text == "" {
        return Accepted;
      }
      var parts := Split(text, SEPARATORS);
      if |parts| < 2 || |parts| == 3 {
        return Malformed;
      }
      for i := 0 to |parts|
        invariant i > 0 ==> !RelFirst(parts)
        invariant Next == Target(parts[..i], LINK_NEXT, old(Next))
        invariant Last == Target(parts[..i], LINK_LAST, old(Last))
      {
        assert parts[..i + 1][..i] == parts[..i];
        var v := parts[i];
        if Contains(v, LINK_NEXT) {
          if i == 0 { return Panicked; }
          Next := Delete(parts[i - 1], BRACKETS);
        }
        if Contains(v, LINK_LAST) {
          if i == 0 { return Panicked; }
          Last := Delete(parts[i - 1], BRACKETS);
        }
      }
      assert parts[..|parts|] == parts;
      outcome := if Next == Last && |parts| == 4 then Malformed else Accepted;
    }

    function MarshalText(): (text: string)
      reads this
      ensures text == Marshal(Value())
    {
      var next := "<" + Next + ">; " + LINK_NEXT;
      var last := "<" + Last + ">; " + LINK_LAST;
      assert Join([next], ",") == next && [next, last][..1] == [next];
      if Next != "" then Join([next, last], ",") else last
    }
  }

  /** The early refusals and the panic, on every text: one part or three are refused and change nothing, and
      any other number of parts panics exactly when the text before the first separator holds a rel. */
  lemma UnmarshalRefusals(a: string, c: char, b: string, prior: Links)
    requires Free(a, SEPARATORS) && c in SEPARATORS
    ensures Unmarshal("", prior) == (Accepted, prior)
    ensures a != "" ==> Unmarshal(a, prior) == (Malformed, prior)
    ensures Separators(b, SEPARATORS) == 1 ==> Unmarshal(a + [c] + b, prior) == (Malformed, prior)
    ensures Separators(b, SEPARATORS) != 1 ==>
              (Unmarshal(a + [c] + b, prior).0 == Panicked <==> Contains(a, LINK_NEXT) || Contains(a, LINK_LAST))
  {
    SplitFree(a, SEPARATORS);
    SplitAt(a, c, b, SEPARATORS);
    SplitCount(b, SEPARATORS);
  }

  // ---- lists of link-values: the fragment of RFC 8288, section 3, with one rel a link ----

  /** A link-value with its optional white space: before it, before and after its semicolon, and after it. */
  datatype LinkRef = LinkRef(pad: string, target: string, rel: string,
                             gap: string := "", lead: string := " ", tail: string := "")

  function Needle(rel: string): string { "rel=\"" + rel + "\"" }

  function TargetPart(r: LinkRef): string { r.pad + "<" + r.target + ">" + r.gap }

  function RelPart(r: LinkRef): string { r.lead + Needle(r.rel) + r.tail }

  function Header(refs: seq<LinkRef>): string {
    if |refs| == 0 then ""
    else
      var r := refs[|refs| - 1];
      var text := TargetPart(r) + ";" + RelPart(r);
      if |refs| == 1 then text else Header(refs[..|refs| - 1]) + "," + text
  }

  predicate Blank(c: char) { c == ' ' || c == '\t' || c == '\n' || c == '\r' }

  predicate AllBlank(s: string) { forall c | c in s :: Blank(c) }

  /** White space, a target without separators, brackets or rel strings, a token as rel. */
  predicate Clean(r: LinkRef) {
    && AllBlank(r.pad) && AllBlank(r.gap) && AllBlank(r.lead) && AllBlank(r.tail)
    && Free(r.target, SPECIALS)
    && !Contains(r.target, LINK_NEXT) && !Contains(r.target, LINK_LAST)
    && Free(r.rel, {',', ';', '"'})
  }

  /** What the parser finds of a link-value: its target, with the white space inside the part. */
  function Found(r: LinkRef): string { r.pad + r.target + r.gap }

  /** The target of the last link-value with that rel, with the white space on its two sides. */
  function LastNamed(refs: seq<LinkRef>, rel: string, fallback: string): string {
    if |refs| == 0 then fallback
    else
      var r := refs[|refs| - 1];
      if r.rel == rel then Found(r) else LastNamed(refs[..|refs| - 1], rel, fallback)
  }

  function Parts(refs: seq<LinkRef>): seq<string> {
    if |refs| == 0 then []
    else Parts(refs[..|refs| - 1]) + [TargetPart(refs[|refs| - 1]), RelPart(refs[|refs| - 1])]
  }

  lemma NeedleOccurs(r: LinkRef)
    ensures Contains(RelPart(r), Needle(r.rel))
  {
    assert OccursAt(RelPart(r), Needle(r.rel), |r.lead|);
  }

  lemma OccursChars(s: string, sub: string, i: nat)
    requires OccursAt(s, sub, i)
    ensures forall k | 0 <= k < |sub| :: s[i + k] == sub[k]
  {
  }

  lemma NeedleChars(q: string)
    ensures |Needle(q)| == 6 + |q|
    ensures Needle(q)[0] == 'r' && Needle(q)[4] == '"' && Needle(q)[5 + |q|] == '"'
    ensures forall k | 0 <= k < |q| :: Needle(q)[5 + k] == q[k]
  {
  }

  /** A rel part contains `rel="q"` exactly when its rel is `q`: both quotes must line up. */
  lemma RelPartNames(r: LinkRef, q: string)
    requires '"' !in r.lead && '"' !in r.rel && '"' !in r.tail && '"' !in q
    ensures Contains(RelPart(r), Needle(q)) <==> r.rel == q
  {
    if r.rel == q {
      NeedleOccurs(r);
    }
    if Contains(RelPart(r), Needle(q)) {
      var i :| 0 <= i <= |RelPart(r)| && OccursAt(RelPart(r), Needle(q), i);
      RelPartOccurrence(r, q, i);
    }
  }

  lemma RelPartOccurrence(r: LinkRef, q: string, i: nat)
    requires '"' !in r.lead && '"' !in r.rel && '"' !in r.tail && '"' !in q
    requires OccursAt(RelPart(r), Needle(q), i)
    ensures r.rel == q
  {
    OccursChars(RelPart(r), Needle(q), i);
    NeedleChars(q);
    NeedleChars(r.rel);
    QuotesOf(r, i + 4);
    QuotesOf(r, i + (5 + |q|));
    forall k | 0 <= k < |q| ensures Needle(r.rel)[5 + k] == q[k] {
      assert RelPart(r)[i + (5 + k)] == Needle(q)[5 + k];
    }
  }

  /** The two quotes of a rel part. */
  lemma QuotesOf(r: LinkRef, i: nat)
    requires '"' !in r.lead && '"' !in r.rel && '"' !in r.tail && i < |RelPart(r)|
    ensures RelPart(r)[i] == '"' ==> i == |r.lead| + 4 || i == |r.lead| + 5 + |r.rel|
  {
    var k := i - |r.lead|;
    NeedleChars(r.rel);
    if 0 <= k < |Needle(r.rel)| {
      assert RelPart(r)[i] == Needle(r.rel)[k];
      if 5 <= k < 5 + |r.rel| {
        assert Needle(r.rel)[5 + (k - 5)] == r.rel[k - 5];
      }
    } else if k < 0 {
      assert RelPart(r)[i] == r.lead[i];
    } else {
      assert RelPart(r)[i] == r.tail[k - |Needle(r.rel)|];
    }
  }

  /** The brackets of a target part shield it: a rel string is in the part only if it is in the target. */
  lemma TargetPartContains(r: LinkRef, needle: string)
    requires AllBlank(r.pad) && AllBlank(r.gap)
    requires |needle| > 0 && needle[0] == 'r' && Free(needle, BRACKETS)
    ensures Contains(TargetPart(r), needle) <==> Contains(r.target, needle)
  {
    if Contains(r.target, needle) {
      TargetOccurs(r, needle);
    }
    if Contains(TargetPart(r), needle) {
      var i :| 0 <= i <= |TargetPart(r)| && OccursAt(TargetPart(r), needle, i);
      OccursChars(TargetPart(r), needle, i);
      ShieldedOccurrence(r, needle, i);
      InTarget(r, needle, i);
    }
  }

  lemma TargetOccurs(r: LinkRef, needle: string)
    requires Contains(r.target, needle)
    ensures Contains(TargetPart(r), needle)
  {
    var i :| 0 <= i <= |r.target| && OccursAt(r.target, needle, i);
    InsideOf(r.pad + "<", r.target, ">" + r.gap, i, |needle|);
    assert TargetPart(r) == (r.pad + "<") + r.target + (">" + r.gap);
    assert OccursAt(TargetPart(r), needle, |r.pad| + 1 + i);
  }

  lemma InTarget(r: LinkRef, needle: string, i: nat)
    requires OccursAt(TargetPart(r), needle, i)
    requires |r.pad| + 1 <= i && i + |needle| <= |r.pad| + 1 + |r.target|
    ensures Contains(r.target, needle)
  {
    var j := i - |r.pad| - 1;
    InsideOf(r.pad + "<", r.target, ">" + r.gap, j, |needle|);
    assert TargetPart(r) == (r.pad + "<") + r.target + (">" + r.gap);
    assert OccursAt(r.target, needle, j);
  }

  lemma InsideOf(a: string, b: string, c: string, i: nat, n: nat)
    requires i + n <= |b|
    ensures (a + b + c)[|a| + i..|a| + i + n] == b[i..i + n]
  {
  }

  lemma ShieldedOccurrence(r: LinkRef, needle: string, i: nat)
    requires AllBlank(r.pad) && AllBlank(r.gap)
    requires |needle| > 0 && needle[0] == 'r' && Free(needle, BRACKETS)
    requires i + |needle| <= |TargetPart(r)|
    requires forall k | 0 <= k < |needle| :: TargetPart(r)[i + k] == needle[k]
    ensures |r.pad| + 1 <= i && i + |needle| <= |r.pad| + 1 + |r.target|
  {
    var s, p, q := TargetPart(r), |r.pad|, |r.pad| + 1 + |r.target|;
    assert s[p] == '<' && s[q] == '>';
    assert forall k | 0 <= k < p :: s[k] == r.pad[k] && r.pad[k] in r.pad;
    assert forall k | q < k < |s| :: s[k] == r.gap[k - q - 1] && r.gap[k - q - 1] in r.gap;
    assert s[i + 0] == needle[0];
    Avoids(s, needle, i, p);
    Avoids(s, needle, i, q);
  }

  /** An occurrence that runs over position `p` has its character. */
  lemma Avoids(s: string, needle: string, i: nat, p: nat)
    requires p < |s| && i + |needle| <= |s|
    requires forall k | 0 <= k < |needle| :: s[i + k] == needle[k]
    ensures i <= p < i + |needle| ==> s[p] in needle
  {
    if i <= p < i + |needle| {
      assert s[i + (p - i)] == needle[p - i];
    }
  }

  /** No separator in any piece of a link-value. */
  predicate SeparatorFree(r: LinkRef) {
    && Free(r.pad, SEPARATORS) && Free(r.target, SEPARATORS) && Free(r.gap, SEPARATORS)
    && Free(r.lead, SEPARATORS) && Free(r.rel, SEPARATORS) && Free(r.tail, SEPARATORS)
  }

  /** A link-value is two parts. */
  lemma SplitLink(r: LinkRef)
    requires SeparatorFree(r)
    ensures Split(TargetPart(r) + ";" + RelPart(r), SEPARATORS) == [TargetPart(r), RelPart(r)]
  {
    FreeConcat(r.pad + "<" + r.target + ">", r.gap, SEPARATORS);
    FreeConcat(r.pad + "<" + r.target, ">", SEPARATORS);
    FreeConcat(r.pad + "<", r.target, SEPARATORS);
    FreeConcat(r.pad, "<", SEPARATORS);
    FreeConcat("rel=\"" + r.rel, "\"", SEPARATORS);
    FreeConcat("rel=\"", r.rel, SEPARATORS);
    FreeConcat(r.lead, Needle(r.rel), SEPARATORS);
    FreeConcat(r.lead + Needle(r.rel), r.tail, SEPARATORS);
    SplitFree(TargetPart(r), SEPARATORS);
    SplitFree(RelPart(r), SEPARATORS);
    SplitAt(TargetPart(r), ';', RelPart(r), SEPARATORS);
  }

  lemma {:induction false} SplitHeader(refs: seq<LinkRef>)
    requires |refs| >= 1 && forall i | 0 <= i < |refs| :: SeparatorFree(refs[i])
    ensures Split(Header(refs), SEPARATORS) == Parts(refs)
  {
    var n := |refs| - 1;
    var text := TargetPart(refs[n]) + ";" + RelPart(refs[n]);
    SplitLink(refs[n]);
    if n > 0 {
      SplitHeader(refs[..n]);
      SplitAt(Header(refs[..n]), ',', text, SEPARATORS);
    } else {
      assert Parts(refs[..n]) == [];
    }
  }

  lemma PartsLength(refs: seq<LinkRef>)
    ensures |Parts(refs)| == 2 * |refs|
    ensures |refs| > 0 ==> Parts(refs)[0] == TargetPart(refs[0])
  {
  }

  lemma CleanTargetPart(r: LinkRef)
    requires Clean(r)
    ensures Delete(TargetPart(r), BRACKETS) == Found(r)
  {
    DeleteFree(r.pad, BRACKETS);
    DeleteFree(r.target, BRACKETS);
    DeleteFree(r.gap, BRACKETS);
    DeleteFive(r.pad, "<", r.target, ">", r.gap);
    assert Delete("<", BRACKETS) == "" && Delete(">", BRACKETS) == "";
    assert r.pad + "" + r.target + "" + r.gap == r.pad + r.target + r.gap;
  }

  lemma DeleteFive(a: string, b: string, c: string, d: string, e: string)
    ensures Delete(a + b + c + d + e, BRACKETS) ==
            Delete(a, BRACKETS) + Delete(b, BRACKETS) + Delete(c, BRACKETS) + Delete(d, BRACKETS) + Delete(e, BRACKETS)
  {
    DeleteConcat(a, b, BRACKETS);
    DeleteConcat(a + b, c, BRACKETS);
    DeleteConcat(a + b + c, d, BRACKETS);
    DeleteConcat(a + b + c + d, e, BRACKETS);
  }

  lemma CleanHasNoRel(r: LinkRef, rel: string)
    requires Clean(r) && (rel == "next" || rel == "last")
    ensures !Contains(TargetPart(r), Needle(rel))
  {
    assert Needle("next") == LINK_NEXT && Needle("last") == LINK_LAST;
    TargetPartContains(r, Needle(rel));
  }

  /** Two parts without the rel at the end change nothing. */
  lemma SkipTwo(parts: seq<string>, a: string, b: string, needle: string, fallback: string)
    requires |parts| != 1 && !Contains(a, needle) && !Contains(b, needle)
    ensures Target(parts + [a, b], needle, fallback) == Target(parts, needle, fallback)
  {
    var all := parts + [a, b];
    assert all[..|all| - 1] == parts + [a];
    assert (parts + [a])[..|parts|] == parts;
  }

  lemma {:induction false} TargetOfParts(refs: seq<LinkRef>, rel: string, fallback: string)
    requires forall i | 0 <= i < |refs| :: Clean(refs[i])
    requires rel == "next" || rel == "last"
    ensures Target(Parts(refs), Needle(rel), fallback) == LastNamed(refs, rel, fallback)
  {
    if |refs| > 0 {
      var n := |refs| - 1;
      var r, parts := refs[n], Parts(refs);
      RelPartNames(r, rel);
      if r.rel == rel {
        CleanTargetPart(r);
      } else {
        CleanHasNoRel(r, rel);
        PartsLength(refs[..n]);
        SkipTwo(Parts(refs[..n]), TargetPart(r), RelPart(r), Needle(rel), fallback);
        TargetOfParts(refs[..n], rel, fallback);
      }
    }
  }

  /** No double quote in any piece of a link-value but the two of its rel. */
  predicate QuoteFree(r: LinkRef) {
    && '"' !in r.pad && '"' !in r.target && '"' !in r.gap
    && '"' !in r.lead && '"' !in r.rel && '"' !in r.tail
  }

  lemma TargetPartHasNoRel(r: LinkRef, rel: string)
    requires QuoteFree(r)
    ensures !Contains(TargetPart(r), Needle(rel))
  {
    if Contains(TargetPart(r), Needle(rel)) {
      var i :| 0 <= i <= |TargetPart(r)| && OccursAt(TargetPart(r), Needle(rel), i);
      OccursChars(TargetPart(r), Needle(rel), i);
      NeedleChars(rel);
      TargetPartQuotes(r, i + 4);
    }
  }

  lemma TargetPartQuotes(r: LinkRef, k: nat)
    requires QuoteFree(r) && k < |TargetPart(r)|
    ensures TargetPart(r)[k] != '"'
  {
  }

  /** Any rel is read like `next` and `last`, where double quotes stand around rels only. */
  lemma {:induction false} RelOfParts(refs: seq<LinkRef>, rel: string)
    requires forall i | 0 <= i < |refs| :: Clean(refs[i]) && QuoteFree(refs[i])
    requires '"' !in rel
    ensures Target(Parts(refs), Needle(rel), "") == LastNamed(refs, rel, "")
  {
    if |refs| > 0 {
      var n := |refs| - 1;
      var r := refs[n];
      RelPartNames(r, rel);
      if r.rel == rel {
        CleanTargetPart(r);
      } else {
        TargetPartHasNoRel(r, rel);
        PartsLength(refs[..n]);
        SkipTwo(Parts(refs[..n]), TargetPart(r), RelPart(r), Needle(rel), "");
        RelOfParts(refs[..n], rel);
      }
    }
  }

  /** The target that a header names with a rel, read from its text; empty when it names none. */
  function Named(header: string, rel: string): string {
    Target(Split(header, SEPARATORS), Needle(rel), "")
  }

  lemma NamedInList(refs: seq<LinkRef>, rel: string)
    requires forall i | 0 <= i < |refs| :: Clean(refs[i]) && QuoteFree(refs[i])
    requires '"' !in rel
    ensures Named(Header(refs), rel) == LastNamed(refs, rel, "")
  {
    if |refs| > 0 {
      SplitClean(refs);
      RelOfParts(refs, rel);
    }
  }

  /** A rel that no link-value has does not occur in the text at all. */
  lemma {:induction false} RelAbsent(refs: seq<LinkRef>, rel: string)
    requires forall i | 0 <= i < |refs| :: Clean(refs[i]) && QuoteFree(refs[i]) && refs[i].rel != rel
    requires '"' !in rel && Free(rel, SEPARATORS)
    ensures !Contains(Header(refs), Needle(rel))
  {
    NeedleFree(rel);
    if |refs| > 0 && Contains(Header(refs), Needle(rel)) {
      SplitClean(refs);
      var i :| 0 <= i <= |Header(refs)| && OccursAt(Header(refs), Needle(rel), i);
      var k := ContainsInPart(Header(refs), Needle(rel), SEPARATORS, i);
      NoPartHas(refs, rel, k);
    }
  }

  lemma NeedleFree(rel: string)
    requires Free(rel, SEPARATORS)
    ensures Free(Needle(rel), SEPARATORS) && Needle(rel) != ""
  {
    FreeConcat("rel=\"" + rel, "\"", SEPARATORS);
    FreeConcat("rel=\"", rel, SEPARATORS);
  }

  lemma {:induction false} NoPartHas(refs: seq<LinkRef>, rel: string, k: nat)
    requires forall i | 0 <= i < |refs| :: Clean(refs[i]) && QuoteFree(refs[i]) && refs[i].rel != rel
    requires '"' !in rel && k < |Parts(refs)|
    ensures !Contains(Parts(refs)[k], Needle(rel))
  {
    var n := |refs| - 1;
    PartsLength(refs);
    PartsLength(refs[..n]);
    if k < |Parts(refs[..n])| {
      NoPartHas(refs[..n], rel, k);
    } else {
      TargetPartHasNoRel(refs[n], rel);
      RelPartNames(refs[n], rel);
    }
  }

  lemma {:induction false} LinkListStart(refs: seq<LinkRef>)
    requires |refs| >= 1 && Clean(refs[0])
    ensures !RelFirst(Parts(refs))
  {
    PartsLength(refs);
    TargetPartContains(refs[0], LINK_NEXT);
    TargetPartContains(refs[0], LINK_LAST);
  }

  /** Main result, list direction: over every non-empty list of clean link-values the parser finds
      the last `next` and the last `last`; it refuses only two link-values that name one target. */
  lemma {:induction false} ParseLinkList(refs: seq<LinkRef>, prior: Links)
    requires |refs| >= 1 && forall i | 0 <= i < |refs| :: Clean(refs[i])
    ensures var l := Links(LastNamed(refs, "next", prior.next), LastNamed(refs, "last", prior.last));
            Unmarshal(Header(refs), prior) ==
            (if |refs| == 2 && l.next == l.last then Malformed else Accepted, l)
  {
    assert Split(Header(refs), SEPARATORS) == Parts(refs) by { SplitClean(refs); }
    assert |Parts(refs)| == 2 * |refs| by { PartsLength(refs); }
    assert !RelFirst(Parts(refs)) by { LinkListStart(refs); }
    TargetsOfParts(refs, prior);
    HeaderNotEmpty(refs);
  }

  lemma {:induction false} TargetsOfParts(refs: seq<LinkRef>, prior: Links)
    requires forall i | 0 <= i < |refs| :: Clean(refs[i])
    ensures Target(Parts(refs), LINK_NEXT, prior.next) == LastNamed(refs, "next", prior.next)
    ensures Target(Parts(refs), LINK_LAST, prior.last) == LastNamed(refs, "last", prior.last)
  {
    TargetOfParts(refs, "next", prior.next);
    TargetOfParts(refs, "last", prior.last);
    assert Needle("next") == LINK_NEXT && Needle("last") == LINK_LAST;
  }

  lemma {:induction false} HeaderNotEmpty(refs: seq<LinkRef>)
    requires |refs| >= 1
    ensures Header(refs) != ""
  {
  }

  lemma {:induction false} SplitClean(refs: seq<LinkRef>)
    requires |refs| >= 1 && forall i | 0 <= i < |refs| :: Clean(refs[i])
    ensures Split(Header(refs), SEPARATORS) == Parts(refs)
  {
    forall i | 0 <= i < |refs| ensures SeparatorFree(refs[i]) {
      assert Clean(refs[i]);
    }
    SplitHeader(refs);
  }

  // ---- the round trip, exactly ----

  /** The links that survive printing and parsing. */
  predicate Printable(l: Links) {
    && Free(l.next, SPECIALS) && Free(l.last, SPECIALS)
    && !Contains(l.last, LINK_NEXT)
    && (if l.next == "" then !Contains(l.last, LINK_LAST)
        else l.next != l.last && !Contains(l.next, LINK_NEXT) && !Contains(l.next, LINK_LAST))
  }

  function RefsOf(l: Links): seq<LinkRef> {
    var last := LinkRef("", l.last, "last");
    if l.next != "" then [LinkRef("", l.next, "next"), last] else [last]
  }

  lemma MarshalIsHeader(l: Links)
    ensures Marshal(l) == Header(RefsOf(l))
  {
    var next, last := LinkRef("", l.next, "next"), LinkRef("", l.last, "last");
    PrintedText(l.next, "next");
    PrintedText(l.last, "last");
    assert Needle("next") == LINK_NEXT && Needle("last") == LINK_LAST;
    assert [next, last][..1] == [next];
  }

  /** A rel as `MarshalText` prints it, after the semicolon. */
  function PrintedRel(rel: string): string { " " + Needle(rel) }

  lemma PrintedParts(target: string, rel: string)
    ensures TargetPart(LinkRef("", target, rel)) == "<" + target + ">"
    ensures RelPart(LinkRef("", target, rel)) == PrintedRel(rel)
  {
  }

  lemma PrintedText(target: string, rel: string)
    ensures TargetPart(LinkRef("", target, rel)) + ";" + RelPart(LinkRef("", target, rel)) ==
            "<" + target + ">; " + Needle(rel)
  {
    PrintedParts(target, rel);
    assert ";" + " " == "; ";
  }

  /** Whatever is parsed into a fresh Link is free of separators and brackets. */
  lemma {:induction false} TargetFree(parts: seq<string>, rel: string)
    requires forall i | 0 <= i < |parts| :: Free(parts[i], SEPARATORS)
    ensures Free(Target(parts, rel, ""), SPECIALS)
  {
    if |parts| >= 2 {
      if Contains(parts[|parts| - 1], rel) {
        DeleteLeaves(parts[|parts| - 2], BRACKETS);
      } else {
        TargetFree(parts[..|parts| - 1], rel);
      }
    }
  }

  /** The parts of a printed Link whose targets have no separator. */
  lemma MarshalParts(l: Links)
    requires Free(l.next, SPECIALS) && Free(l.last, SPECIALS)
    ensures Split(Marshal(l), SEPARATORS) ==
            if l.next != "" then ["<" + l.next + ">", PrintedRel("next"), "<" + l.last + ">", PrintedRel("last")]
            else ["<" + l.last + ">", PrintedRel("last")]
  {
    MarshalIsHeader(l);
    SplitHeader(RefsOf(l));
    var next, last := LinkRef("", l.next, "next"), LinkRef("", l.last, "last");
    PrintedParts(l.next, "next");
    PrintedParts(l.last, "last");
    assert Parts([]) == [];
    assert Parts([last]) == ["<" + l.last + ">", PrintedRel("last")] by { assert [last][..0] == []; }
    assert Parts([next]) == ["<" + l.next + ">", PrintedRel("next")] by { assert [next][..0] == []; }
    assert [next, last][..1] == [next];
  }

  lemma BracketedTarget(target: string)
    requires Free(target, SPECIALS)
    ensures Delete("<" + target + ">", BRACKETS) == target
    ensures Contains("<" + target + ">", LINK_NEXT) <==> Contains(target, LINK_NEXT)
    ensures Contains("<" + target + ">", LINK_LAST) <==> Contains(target, LINK_LAST)
  {
    var r := LinkRef("", target, "");
    PrintedParts(target, "");
    TargetPartContains(r, LINK_NEXT);
    TargetPartContains(r, LINK_LAST);
    DeleteConcat("<" + target, ">", BRACKETS);
    DeleteConcat("<", target, BRACKETS);
    DeleteFree(target, BRACKETS);
  }

  lemma RelPartsDiffer()
    ensures Contains(PrintedRel("next"), LINK_NEXT) && !Contains(PrintedRel("next"), LINK_LAST)
    ensures Contains(PrintedRel("last"), LINK_LAST) && !Contains(PrintedRel("last"), LINK_NEXT)
    ensures Delete(PrintedRel("next"), BRACKETS) == PrintedRel("next")
  {
    assert Needle("next") == LINK_NEXT && Needle("last") == LINK_LAST;
    PrintedNames("next", "next");
    PrintedNames("next", "last");
    PrintedNames("last", "next");
    PrintedNames("last", "last");
    DeleteFree(PrintedRel("next"), BRACKETS);
  }

  lemma PrintedNames(rel: string, q: string)
    requires '"' !in rel && '"' !in q
    ensures Contains(PrintedRel(rel), Needle(q)) <==> rel == q
  {
    PrintedParts("", rel);
    RelPartNames(LinkRef("", "", rel), q);
  }

  lemma TargetOfTwo(a: string, b: string, rel: string)
    ensures Target([a, b], rel, "") == if Contains(b, rel) then Delete(a, BRACKETS) else ""
  {
  }

  lemma TargetOfFour(a: string, b: string, c: string, d: string, rel: string)
    ensures Target([a, b, c, d], rel, "") ==
            if Contains(d, rel) then Delete(c, BRACKETS)
            else if Contains(c, rel) then Delete(b, BRACKETS)
            else if Contains(b, rel) then Delete(a, BRACKETS)
            else ""
  {
    assert [a, b, c, d][..3] == [a, b, c];
    assert [a, b, c][..2] == [a, b];
    TargetOfTwo(a, b, rel);
  }

  /** The parser on the two parts of a Link without Next, and on the four parts of one with Next. */
  lemma UnmarshalPrinted(l: Links)
    requires Free(l.next, SPECIALS) && Free(l.last, SPECIALS)
    ensures Unmarshal(Marshal(l), NO_LINKS) ==
            if Contains(if l.next != "" then l.next else l.last, LINK_NEXT) ||
               Contains(if l.next != "" then l.next else l.last, LINK_LAST) then (Panicked, NO_LINKS)
            else if l.next == "" then (Accepted, l)
            else
              var next := if Contains(l.last, LINK_NEXT) then PrintedRel("next") else l.next;
              (if next == l.last then Malformed else Accepted, Links(next, l.last))
  {
    MarshalParts(l);
    BracketedTarget(l.next);
    BracketedTarget(l.last);
    RelPartsDiffer();
    var next, last := "<" + l.next + ">", "<" + l.last + ">";
    if l.next == "" {
      TargetOfTwo(last, PrintedRel("last"), LINK_NEXT);
      TargetOfTwo(last, PrintedRel("last"), LINK_LAST);
    } else {
      TargetOfFour(next, PrintedRel("next"), last, PrintedRel("last"), LINK_NEXT);
      TargetOfFour(next, PrintedRel("next"), last, PrintedRel("last"), LINK_LAST);
    }
  }

  /** Main result, round trip: a printed Link parses back to itself exactly when it is `Printable`. */
  lemma RoundTrip(l: Links)
    ensures Unmarshal(Marshal(l), NO_LINKS) == (Accepted, l) <==> Printable(l)
  {
    if Free(l.next, SPECIALS) && Free(l.last, SPECIALS) {
      UnmarshalPrinted(l);
      RelPartsDiffer();
    } else if Marshal(l) != "" {
      var parts := Split(Marshal(l), SEPARATORS);
      SplitParts(Marshal(l), SEPARATORS);
      TargetFree(parts, LINK_NEXT);
      TargetFree(parts, LINK_LAST);
    }
  }

  /** Two pages: `next` and `last` name one target, and the printed header is refused. */
  lemma EqualTargetsAreRefused(target: string)
    requires target != "" && Printable(Links("", target))
    ensures Unmarshal(Marshal(Links(target, target)), NO_LINKS) == (Malformed, Links(target, target))
  {
    UnmarshalPrinted(Links(target, target));
  }

  // ---- the regular-expression shortcut ----

  function IndexOf(s: string, c: char): (i: nat)
    ensures i <= |s| && (i < |s| ==> s[i] == c)
  {
    if s == "" || s[0] == c then 0
    else
      1 + IndexOf(s[1..], c)
  }

  lemma {:induction false} IndexOfAt(a: string, c: char, b: string)
    requires c !in a
    ensures IndexOf(a + [c] + b, c) == |a|
  {
    if a != "" {
      assert (a + [c] + b)[1..] == a[1..] + [c] + b;
      IndexOfAt(a[1..], c, b);
    }
  }

  /** `getNextLink`: the leftmost match of `<([^>]+)>`, without its two brackets. */
  function GetNextLink(raw: string): string {
    if raw == "" then ""
    else
      var i := IndexOf(raw[1..], '>');
      if raw[0] == '<' && 0 < i < |raw| - 1 then raw[1..][..i] else GetNextLink(raw[1..])
  }

  /** `t` stands between brackets at offset `i`: a match of the regular expression. */
  predicate BracketedAt(raw: string, i: nat, t: string) {
    && t != "" && '>' !in t
    && i + |t| + 2 <= |raw| && raw[i] == '<' && raw[i + 1..i + 1 + |t|] == t && raw[i + 1 + |t|] == '>'
  }

  /** The offset of the leftmost match. */
  function MatchOffset(raw: string): nat {
    if raw == "" then 0
    else
      var i := IndexOf(raw[1..], '>');
      if raw[0] == '<' && 0 < i < |raw| - 1 then 0 else 1 + MatchOffset(raw[1..])
  }

  lemma {:induction false} IndexOfBound(s: string, c: char, k: nat)
    requires k < |s| && s[k] == c
    ensures IndexOf(s, c) <= k
    decreases |s|
  {
    if k > 0 {
      IndexOfBound(s[1..], c, k - 1);
    }
  }

  lemma {:induction false} IndexOfFirst(s: string, c: char)
    ensures c !in s[..IndexOf(s, c)]
  {
    if s != "" && s[0] != c {
      IndexOfFirst(s[1..], c);
      assert s[..IndexOf(s, c)] == [s[0]] + s[1..][..IndexOf(s[1..], c)];
    }
  }

  /** On every text `getNextLink` returns the leftmost match, and nothing exactly when there is none. */
  lemma {:induction false} GetNextLinkLeftmost(raw: string, i: nat, t: string)
    ensures GetNextLink(raw) != "" ==> BracketedAt(raw, MatchOffset(raw), GetNextLink(raw))
    ensures BracketedAt(raw, i, t) ==> GetNextLink(raw) != "" && MatchOffset(raw) <= i
  {
    if raw != "" {
      var tail := raw[1..];
      var k := IndexOf(tail, '>');
      if raw[0] == '<' && 0 < k < |raw| - 1 {
        IndexOfFirst(tail, '>');
        assert raw[1..1 + k] == tail[..k];
      } else {
        GetNextLinkLeftmost(tail, if i > 0 then i - 1 else 0, t);
        LaterMatch(raw, i, t);
        MatchInTail(raw, MatchOffset(tail), GetNextLink(tail));
      }
    }
  }

  /** A match of a text whose first character starts none is a match of its tail. */
  lemma LaterMatch(raw: string, i: nat, t: string)
    requires raw != "" && !(raw[0] == '<' && 0 < IndexOf(raw[1..], '>') < |raw| - 1)
    ensures BracketedAt(raw, i, t) ==> i > 0 && BracketedAt(raw[1..], i - 1, t)
  {
    MatchAtStart(raw, t);
    if i > 0 && BracketedAt(raw, i, t) {
      assert raw[1..][i - 1 + 1..i - 1 + 1 + |t|] == raw[i + 1..i + 1 + |t|];
    }
  }

  lemma MatchAtStart(raw: string, t: string)
    ensures BracketedAt(raw, 0, t) ==> raw[0] == '<' && 0 < IndexOf(raw[1..], '>') < |raw| - 1
  {
    if BracketedAt(raw, 0, t) {
      IndexOfBound(raw[1..], '>', |t|);
      assert raw[1] == t[0] && t[0] in t;
    }
  }

  lemma MatchInTail(raw: string, i: nat, t: string)
    requires raw != ""
    ensures BracketedAt(raw[1..], i, t) ==> BracketedAt(raw, i + 1, t)
  {
    if BracketedAt(raw[1..], i, t) {
      assert raw[1..][i + 1..i + 1 + |t|] == raw[i + 2..i + 2 + |t|];
    }
  }

  lemma {:induction false} GetNextLinkAt(pre: string, target: string, rest: string)
    requires '<' !in pre && target != "" && '>' !in target
    ensures GetNextLink(pre + "<" + target + ">" + rest) == target
  {
    var raw := pre + "<" + target + ">" + rest;
    if pre == "" {
      var tail := raw[1..];
      assert tail == target + ">" + rest;
      IndexOfAt(target, '>', rest);
    } else {
      assert raw[1..] == pre[1..] + "<" + target + ">" + rest;
      GetNextLinkAt(pre[1..], target, rest);
    }
  }

  lemma {:induction false} HeaderStart(refs: seq<LinkRef>) returns (rest: string)
    requires |refs| >= 1
    ensures Header(refs) == TargetPart(refs[0]) + rest
  {
    var n := |refs| - 1;
    var r := refs[n];
    var text := ";" + RelPart(r);
    if n == 0 {
      rest := text;
      assert Header(refs) == TargetPart(r) + ";" + RelPart(r);
    } else {
      var rest0 := HeaderStart(refs[..n]);
      rest := rest0 + "," + TargetPart(r) + text;
      assert Header(refs) == Header(refs[..n]) + "," + (TargetPart(r) + ";" + RelPart(r));
    }
  }

  /** The shortcut looks at no rel: over a list of link-values it takes the first target. */
  lemma GetNextLinkTakesFirst(refs: seq<LinkRef>)
    requires |refs| >= 1 && Clean(refs[0]) && refs[0].target != ""
    ensures GetNextLink(Header(refs)) == refs[0].target
  {
    var rest := HeaderStart(refs);
    var r := refs[0];
    BlankHasNoBracket(r.pad);
    AfterTarget(r.pad + "<" + r.target + ">", r.gap, rest);
    GetNextLinkAt(r.pad, r.target, r.gap + rest);
  }

  lemma BlankHasNoBracket(s: string)
    requires AllBlank(s)
    ensures '<' !in s
  {
  }

  lemma AfterTarget(a: string, b: string, c: string)
    ensures a + b + c == a + (b + c)
  {
  }
}
