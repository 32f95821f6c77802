/** The e-mail transform of `StringValidator.email()`. The pattern
    `^[\w-\.]+@([\w-]+\.)+[\w-]{2,4}$` is given twice: as `EmailPattern`, a
    direct transcription of the regular expression (some local part, then
    "@", then one or more labels each followed by a dot, then a final label
    of two to four characters), and as `MatchesEmail`, a deterministic
    check that splits at the first "@" and at every dot. `MatchesEmailIff`
    proves the two agree on every string. */
module Email {
  import opened Results
  import opened Values
  import opened Validators
  import Text

  const InvalidEmail: string := "Invalid email address"

  /** `\w`: an ASCII letter, digit or underscore. */
  predicate WordChar(c: char) {
    ('A' <= c <= 'Z') || ('a' <= c <= 'z') || ('0' <= c <= '9') || c == '_'
  }

  /** `[\w-]` */
  predicate LabelChar(c: char) {
    WordChar(c) || c == '-'
  }

  /** `[\w-\.]` */
  predicate LocalChar(c: char) {
    LabelChar(c) || c == '.'
  }

  /** `[\w-\.]+` */
  predicate IsLocalPart(s: string) {
    |s| > 0 && forall i :: 0 <= i < |s| ==> LocalChar(s[i])
  }

  /** `[\w-]+` */
  predicate IsLabel(s: string) {
    |s| > 0 && forall i :: 0 <= i < |s| ==> LabelChar(s[i])
  }

  /** `[\w-]{2,4}` */
  predicate IsTopLabel(s: string) {
    2 <= |s| <= 4 && forall i :: 0 <= i < |s| ==> LabelChar(s[i])
  }

  /** Each label followed by a dot: the text matched by `([\w-]+\.)+`. */
  function DottedLabels(labels: seq<string>): string
    decreases |labels|
  {
    if |labels| == 0 then "" else labels[0] + "." + DottedLabels(labels[1..])
  }

  function Address(local: string, labels: seq<string>, top: string): string {
    local + "@" + DottedLabels(labels) + top
  }

  /** The regular expression, read as the set of strings it matches. */
  ghost predicate EmailPattern(s: string) {
    exists local: string, labels: seq<string>, top: string ::
      && s == Address(local, labels, top)
      && IsLocalPart(local)
      && |labels| >= 1
      && (forall i :: 0 <= i < |labels| ==> IsLabel(labels[i]))
      && IsTopLabel(top)
  }

  /** Position of the first occurrence of `c` in `s`. */
  function FirstIndex(s: string, c: char): (r: Option<nat>)
    ensures r.Some? ==> r.value < |s| && s[r.value] == c
    ensures r.Some? ==> forall j :: 0 <= j < r.value ==> s[j] != c
    ensures r.None? ==> forall j :: 0 <= j < |s| ==> s[j] != c
    decreases |s|
  {
    if |s| == 0 then None
    else if s[0] == c then Some(0)
    else
      match FirstIndex(s[1..], c)
      case None => None
      case Some(i) => Some(i + 1)
  }

  /** The pieces of `s` between occurrences of `c`. */
  function Split(s: string, c: char): (parts: seq<string>)
    ensures |parts| >= 1
    decreases |s|
  {
    match FirstIndex(s, c)
    case None => [s]
    case Some(i) => [s[..i]] + Split(s[i + 1..], c)
  }

  predicate DomainMatches(d: string) {
    var parts := Split(d, '.');
    && |parts| >= 2
    && (forall j :: 0 <= j < |parts| - 1 ==> IsLabel(parts[j]))
    && IsTopLabel(parts[|parts| - 1])
  }

  /** The executable check. */
  predicate MatchesEmail(s: string) {
    match FirstIndex(s, '@')
    case None => false
    case Some(i) => IsLocalPart(s[..i]) && DomainMatches(s[i + 1..])
  }

  /** The transform `email()` appends: a matching address comes back
      lower-cased, anything else yields the failure descriptor. */
  function EmailTransform(v: Value): (r: Value)
    ensures v.Str? && EmailPattern(v.s) ==> r == Str(Text.Lower(v.s))
    ensures !(v.Str? && EmailPattern(v.s)) ==> FailureMessage(r) == Some(Str(InvalidEmail))
  {
    if v.Str? then MatchesEmailIff(v.s); EmailOutcome(v.s) else ValidatorError(InvalidEmail)
  }

  function EmailOutcome(s: string): Value {
    if MatchesEmail(s) then Str(Text.Lower(s)) else ValidatorError(InvalidEmail)
  }

  lemma {:induction false} FirstIndexAt(s: string, c: char, k: nat)
    requires k < |s| && s[k] == c
    requires forall j :: 0 <= j < k ==> s[j] != c
    ensures FirstIndex(s, c) == Some(k)
    decreases k
  {
    if k > 0 {
      FirstIndexAt(s[1..], c, k - 1);
    }
  }

  lemma SplitPastLabel(l: string, rest: string, c: char)
    requires forall i :: 0 <= i < |l| ==> l[i] != c
    ensures Split(l + [c] + rest, c) == [l] + Split(rest, c)
  {
    var s := l + [c] + rest;
    FirstIndexAt(s, c, |l|);
    assert s[..|l|] == l;
    assert s[|l| + 1..] == rest;
  }

  lemma SplitWhole(t: string, c: char)
    requires forall i :: 0 <= i < |t| ==> t[i] != c
    ensures Split(t, c) == [t]
  {
  }

  /** Splitting a dotted run of labels followed by a final label at the dots
      gives back the labels and the final label. */
  lemma {:induction false} SplitDotted(labels: seq<string>, top: string)
    requires forall i :: 0 <= i < |labels| ==> IsLabel(labels[i])
    requires IsTopLabel(top)
    ensures Split(DottedLabels(labels) + top, '.') == labels + [top]
    decreases |labels|
  {
    if |labels| == 0 {
      assert DottedLabels(labels) + top == top;
      assert forall i :: 0 <= i < |top| ==> top[i] != '.' by {
        assert IsTopLabel(top);
      }
      SplitWhole(top, '.');
    } else {
      var l := labels[0];
      NoDotInLabel(l);
      var rest := DottedLabels(labels[1..]) + top;
      DottedCons(labels, top);
      SplitPastLabel(l, rest, '.');
      SplitDotted(labels[1..], top);
      assert labels == [l] + labels[1..];
    }
  }

  lemma NoDotInLabel(l: string)
    requires IsLabel(l)
    ensures forall i :: 0 <= i < |l| ==> l[i] != '.'
  {
  }

  lemma DottedCons(labels: seq<string>, top: string)
    requires |labels| > 0
    ensures DottedLabels(labels) + top == labels[0] + ['.'] + (DottedLabels(labels[1..]) + top)
  {
  }

  /** The pieces joined back with a dot after every piece but the last. */
  function Rejoin(parts: seq<string>): string
    requires |parts| >= 1
  {
    DottedLabels(parts[..|parts| - 1]) + parts[|parts| - 1]
  }

  /** Re-joining the pieces of a split with dots gives the string back. */
  lemma {:induction false} SplitRejoin(s: string)
    ensures Rejoin(Split(s, '.')) == s
    decreases |s|
  {
    var fi := FirstIndex(s, '.');
    if fi.Some? {
      var i := fi.value;
      var tail := s[i + 1..];
      SplitRejoin(tail);
      assert Split(s, '.') == [s[..i]] + Split(tail, '.');
      RejoinCons(s[..i], Split(tail, '.'));
      assert s == s[..i] + "." + tail;
    }
  }

  lemma RejoinCons(head: string, rest: seq<string>)
    requires |rest| >= 1
    ensures Rejoin([head] + rest) == head + "." + Rejoin(rest)
  {
    var parts := [head] + rest;
    var init := parts[..|parts| - 1];
    assert init == [head] + rest[..|rest| - 1];
    assert init[1..] == rest[..|rest| - 1];
    assert DottedLabels(init) == head + "." + DottedLabels(rest[..|rest| - 1]);
    assert parts[|parts| - 1] == rest[|rest| - 1];
  }

  /** In an address the first "@" is the one after the local part. */
  lemma AtSplitsAddress(local: string, d: string)
    requires IsLocalPart(local)
    ensures var s := local + "@" + d;
            FirstIndex(s, '@') == Some(|local|) && s[..|local|] == local && s[|local| + 1..] == d
  {
    var s := local + "@" + d;
    forall j | 0 <= j < |local|
      ensures s[j] != '@'
    {
      assert s[j] == local[j] && LocalChar(local[j]);
    }
    FirstIndexAt(s, '@', |local|);
    assert s[..|local|] == local;
    assert s[|local| + 1..] == d;
  }

  lemma DomainOfLabels(labels: seq<string>, top: string)
    requires |labels| >= 1
    requires forall i :: 0 <= i < |labels| ==> IsLabel(labels[i])
    requires IsTopLabel(top)
    ensures DomainMatches(DottedLabels(labels) + top)
  {
    SplitDotted(labels, top);
    var parts := Split(DottedLabels(labels) + top, '.');
    assert parts == labels + [top];
    assert forall j :: 0 <= j < |parts| - 1 ==> parts[j] == labels[j];
    assert parts[|parts| - 1] == top;
  }

  lemma AddressMatches(local: string, labels: seq<string>, top: string)
    requires IsLocalPart(local)
    requires |labels| >= 1
    requires forall i :: 0 <= i < |labels| ==> IsLabel(labels[i])
    requires IsTopLabel(top)
    ensures MatchesEmail(Address(local, labels, top))
  {
    var d := DottedLabels(labels) + top;
    assert Address(local, labels, top) == local + "@" + d;
    AtSplitsAddress(local, d);
    DomainOfLabels(labels, top);
  }

  lemma PatternImpliesMatch(s: string)
    requires EmailPattern(s)
    ensures MatchesEmail(s)
  {
    var local: string, labels: seq<string>, top: string :|
      && s == Address(local, labels, top)
      && IsLocalPart(local)
      && |labels| >= 1
      && (forall i :: 0 <= i < |labels| ==> IsLabel(labels[i]))
      && IsTopLabel(top);
    AddressMatches(local, labels, top);
  }

  lemma MatchImpliesPattern(s: string)
    requires MatchesEmail(s)
    ensures EmailPattern(s)
  {
    var i := FirstIndex(s, '@').value;
    var local, d := s[..i], s[i + 1..];
    assert s == local + "@" + d;
    var labels, top := DomainParts(d);
    PatternOf(s, local, labels, top);
  }

  /** A matching domain is a dotted run of labels followed by a top label. */
  lemma DomainParts(d: string) returns (labels: seq<string>, top: string)
    requires DomainMatches(d)
    ensures d == DottedLabels(labels) + top
    ensures |labels| >= 1 && IsTopLabel(top)
    ensures forall i :: 0 <= i < |labels| ==> IsLabel(labels[i])
  {
    var parts := Split(d, '.');
    labels, top := parts[..|parts| - 1], parts[|parts| - 1];
    SplitRejoin(d);
    LeadingLabels(parts);
  }

  lemma PatternOf(s: string, local: string, labels: seq<string>, top: string)
    requires s == Address(local, labels, top)
    requires IsLocalPart(local) && |labels| >= 1 && IsTopLabel(top)
    requires forall i :: 0 <= i < |labels| ==> IsLabel(labels[i])
    ensures EmailPattern(s)
  {
  }

  lemma LeadingLabels(parts: seq<string>)
    requires |parts| >= 1
    requires forall j :: 0 <= j < |parts| - 1 ==> IsLabel(parts[j])
    ensures var labels := parts[..|parts| - 1];
            forall j :: 0 <= j < |labels| ==> IsLabel(labels[j])
  {
    var labels := parts[..|parts| - 1];
    forall j | 0 <= j < |labels|
      ensures IsLabel(labels[j])
    {
      assert labels[j] == parts[j];
    }
  }

  /** The executable check decides exactly the regular expression. */
  lemma MatchesEmailIff(s: string)
    ensures MatchesEmail(s) <==> EmailPattern(s)
  {
    if MatchesEmail(s) {
      MatchImpliesPattern(s);
    }
    if EmailPattern(s) {
      PatternImpliesMatch(s);
    }
  }
}
