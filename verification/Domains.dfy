// acme/preflight.go: which domain lists may be sent to a CA; acme/retry.go: the key
// under which the issuance history of a list is kept.
module Domains {
  import opened GoStrings

  datatype Verdict =
    | Accepted
    | NoDomains
    | CatchAll(domain: string)
    | Wildcard(domain: string)
    | Invalid(domain: string)

  predicate LabelChar(c: char) {
    'a' <= c <= 'z' || 'A' <= c <= 'Z' || '0' <= c <= '9' || c == '-'
  }

  predicate IsLabel(name: string) {
    && 1 <= |name| <= 63
    && name[0] != '-' && name[|name| - 1] != '-'
    && forall i :: 0 <= i < |name| ==> LabelChar(name[i])
  }

  function WithoutTrailingDot(d: string): string {
    if d != "" && d[|d| - 1] == '.' then d[..|d| - 1] else d
  }

  // A host name of at least two labels; a trailing dot is tolerated.
  ghost predicate IsHostName(d: string) {
    && 1 <= |d| <= 253
    && exists labels: seq<string> :: |labels| >= 2
         && Join(labels, ".") == WithoutTrailingDot(d)
         && forall i :: 0 <= i < |labels| ==> IsLabel(labels[i])
  }

  // isValidDomainName
  method IsValidDomainName(d: string) returns (ok: bool)
    ensures ok <==> IsHostName(d)
  {
    HostNameLabels(d);
    hide IsHostName, Split;
    if |d| == 0 || |d| > 253 {
      return false;
    }
    var core := WithoutTrailingDot(d);
    var labels := Split(core, '.');
    if |labels| < 2 {
      return false;
    }
    for k := 0 to |labels|
      invariant forall i | 0 <= i < k :: IsLabel(labels[i])
    {
      var name := labels[k];
      if |name| == 0 || |name| > 63 {
        return false;
      }
      if name[0] == '-' || name[|name| - 1] == '-' {
        return false;
      }
      for i := 0 to |name|
        invariant forall j | 0 <= j < i :: LabelChar(name[j])
      {
        if !LabelChar(name[i]) {
          return false;
        }
      }
    }
    return true;
  }

  lemma LabelHasNoDot(name: string)
    requires IsLabel(name)
    ensures '.' !in name
  {
  }

  lemma {:induction false} JoinSplit(s: string, sep: char)
    ensures Join(Split(s, sep), [sep]) == s
  {
    if s != "" {
      JoinSplit(s[1..], sep);
      var rest := Split(s[1..], sep);
      var parts := Split(s, sep);
      if s[0] == sep {
        assert parts[1..] == rest;
        assert parts[0] + [sep] + Join(rest, [sep]) == [sep] + s[1..];
      } else {
        assert parts[1..] == rest[1..];
        assert [s[0]] + (rest[0] + [sep] + Join(rest[1..], [sep])) == [s[0]] + rest[0] + [sep] + Join(rest[1..], [sep]);
      }
      assert [s[0]] + s[1..] == s;
    }
  }

  // Splitting finds the labels of a host name, and nothing else can be its labels.
  lemma HostNameLabels(d: string)
    ensures var labels := Split(WithoutTrailingDot(d), '.');
      IsHostName(d) <==> 1 <= |d| <= 253 && |labels| >= 2 && forall i :: 0 <= i < |labels| ==> IsLabel(labels[i])
  {
    var core := WithoutTrailingDot(d);
    var labels := Split(core, '.');
    JoinSplit(core, '.');
    if IsHostName(d) {
      var ls: seq<string> :| |ls| >= 2 && Join(ls, ".") == core && forall i :: 0 <= i < |ls| ==> IsLabel(ls[i]);
      forall i | 0 <= i < |ls| ensures '.' !in ls[i] {
        LabelHasNoDot(ls[i]);
      }
      SplitJoin(ls, '.');
    }
  }

  function VerdictOn(d: string, valid: bool): Verdict {
    if d == "" || d == "*" then CatchAll(d)
    else if "*." <= d then Wildcard(d)
    else if !valid then Invalid(d)
    else Accepted
  }

  // The verdict on the first domain that is refused, if any.
  ghost function Validated(domains: seq<string>): Verdict {
    if domains == [] then NoDomains else FirstRefusal(domains)
  }

  ghost function FirstRefusal(domains: seq<string>): Verdict {
    if domains == [] then Accepted
    else
      var v := VerdictOn(domains[0], IsHostName(domains[0]));
      if v.Accepted? then FirstRefusal(domains[1..]) else v
  }

  // ValidateDomainsForACME
  method ValidateDomainsForACME(domains: seq<string>) returns (v: Verdict)
    ensures v == Validated(domains)
  {
    if |domains| == 0 {
      return NoDomains;
    }
    assert domains[0..] == domains;
    for i := 0 to |domains|
      invariant FirstRefusal(domains[i..]) == FirstRefusal(domains)
    {
      var d := domains[i];
      assert domains[i..][1..] == domains[i + 1..];
      if d == "" || d == "*" {
        return CatchAll(d);
      }
      if "*." <= d {
        return Wildcard(d);
      }
      var ok := IsValidDomainName(d);
      if !ok {
        return Invalid(d);
      }
    }
    return Accepted;
  }

  // A domain list is accepted if and only if it is not empty and every domain is a
  // host name: catch-alls and wildcards are none.
  lemma AcceptedIff(domains: seq<string>)
    ensures Validated(domains).Accepted? <==>
      domains != [] && forall i :: 0 <= i < |domains| ==> IsHostName(domains[i])
  {
    hide IsHostName;
    if Validated(domains).Accepted? {
      AcceptedAreHostNames(domains);
    }
    if domains != [] && forall i :: 0 <= i < |domains| ==> IsHostName(domains[i]) {
      HostNamesAccepted(domains);
    }
  }

  lemma {:induction false} HostNamesAccepted(domains: seq<string>)
    requires forall i :: 0 <= i < |domains| ==> IsHostName(domains[i])
    ensures FirstRefusal(domains).Accepted?
  {
    hide IsHostName;
    if domains != [] {
      NoStar(domains[0]);
      HostNamesAccepted(domains[1..]);
    }
  }

  lemma NoStar(d: string)
    requires IsHostName(d)
    ensures d != "" && d != "*" && !("*." <= d)
  {
    HostNameCharacters(d);
    hide IsHostName;
    assert d[0] != '*';
  }

  // A list is refused for the first domain that is no host name, with what that domain is.
  lemma {:induction false} RefusedFor(domains: seq<string>, k: nat)
    requires k < |domains| && !IsHostName(domains[k])
    requires forall i :: 0 <= i < k ==> IsHostName(domains[i])
    ensures var d := domains[k];
      Validated(domains) == if d == "" || d == "*" then CatchAll(d) else if "*." <= d then Wildcard(d) else Invalid(d)
  {
    hide IsHostName;
    if k > 0 {
      NoStar(domains[0]);
      RefusedFor(domains[1..], k - 1);
    }
  }

  // Every character of a host name is a letter, a digit, a hyphen or a dot.
  lemma HostNameCharacters(d: string)
    requires IsHostName(d)
    ensures 1 <= |d| <= 253
    ensures forall i :: 0 <= i < |d| ==>
      'a' <= d[i] <= 'z' || 'A' <= d[i] <= 'Z' || '0' <= d[i] <= '9' || d[i] == '-' || d[i] == '.'
  {
    forall i | 0 <= i < |d|
      ensures 'a' <= d[i] <= 'z' || 'A' <= d[i] <= 'Z' || '0' <= d[i] <= '9' || d[i] == '-' || d[i] == '.'
    {
      HostNameCharacter(d, d[i]);
    }
    hide LabelChar;
  }

  lemma HostNameCharacter(d: string, c: char)
    requires IsHostName(d) && c in d
    ensures 'a' <= c <= 'z' || 'A' <= c <= 'Z' || '0' <= c <= '9' || c == '-' || c == '.'
  {
    var labels: seq<string> :| |labels| >= 2 && Join(labels, ".") == WithoutTrailingDot(d)
      && forall i :: 0 <= i < |labels| ==> IsLabel(labels[i]);
    hide IsHostName, Join, IsLabel;
    OnlyADotIsDropped(d, c);
    if c in Join(labels, ".") {
      JoinChars(labels, ".", c);
      if i :| 0 <= i < |labels| && c in labels[i] {
        LabelCharacter(labels[i], c);
      }
    }
  }

  lemma OnlyADotIsDropped(d: string, c: char)
    requires c in d
    ensures c == '.' || c in WithoutTrailingDot(d)
  {
  }

  lemma LabelCharacter(name: string, c: char)
    requires IsLabel(name) && c in name
    ensures 'a' <= c <= 'z' || 'A' <= c <= 'Z' || '0' <= c <= '9' || c == '-'
  {
    var i :| 0 <= i < |name| && name[i] == c;
    assert LabelChar(name[i]);
  }

  // And which texts are host names, by their labels: two or more of up to 63 letters,
  // digits and inner hyphens each, 253 characters in all, with or without a final dot.
  lemma LabelsAccepted(labels: seq<string>)
    requires labels != [] && labels[|labels| - 1] != ""
    requires forall i | 0 <= i < |labels| :: '.' !in labels[i]
    ensures var d := Join(labels, ".");
      && (IsHostName(d) <==> |labels| >= 2 && |d| <= 253 && forall i :: 0 <= i < |labels| ==> PlainLabel(labels[i]))
      && (IsHostName(d + ".") <==>
            |labels| >= 2 && |d| <= 252 && forall i :: 0 <= i < |labels| ==> PlainLabel(labels[i]))
  {
    var d := Join(labels, ".");
    JoinEndsIn(labels, ".");
    assert d[|d| - 1] in labels[|labels| - 1];
    SplitJoin(labels, '.');
    HostNameLabels(d);
    HostNameLabels(d + ".");
    assert WithoutTrailingDot(d) == d && WithoutTrailingDot(d + ".") == d;
    forall s ensures PlainLabel(s) <==> IsLabel(s) {
      PlainIsLabel(s);
    }
    hide *;
  }

  lemma PlainIsLabel(s: string)
    ensures PlainLabel(s) <==> IsLabel(s)
  {
    hide LabelChar;
    forall c ensures LabelChar(c) <==> 'a' <= c <= 'z' || 'A' <= c <= 'Z' || '0' <= c <= '9' || c == '-' {
      LabelCharIs(c);
    }
  }

  lemma LabelCharIs(c: char)
    ensures LabelChar(c) <==> 'a' <= c <= 'z' || 'A' <= c <= 'Z' || '0' <= c <= '9' || c == '-'
  {
  }

  lemma {:induction false} JoinEndsIn(parts: seq<string>, sep: string)
    requires parts != [] && parts[|parts| - 1] != ""
    ensures var d, last := Join(parts, sep), parts[|parts| - 1];
      d != "" && d[|d| - 1] == last[|last| - 1]
  {
    if |parts| > 1 {
      JoinEndsIn(parts[1..], sep);
    }
  }

  predicate PlainLabel(s: string) {
    && 1 <= |s| <= 63 && s[0] != '-' && s[|s| - 1] != '-'
    && forall i :: 0 <= i < |s| ==>
      'a' <= s[i] <= 'z' || 'A' <= s[i] <= 'Z' || '0' <= s[i] <= '9' || s[i] == '-'
  }

  lemma {:induction false} AcceptedAreHostNames(domains: seq<string>)
    requires FirstRefusal(domains).Accepted?
    ensures forall i :: 0 <= i < |domains| ==> IsHostName(domains[i])
  {
    if domains != [] {
      AcceptedAreHostNames(domains[1..]);
    }
  }

  lemma {:induction false} JoinChars(parts: seq<string>, sep: string, c: char)
    requires c in Join(parts, sep)
    ensures c in sep || exists i :: 0 <= i < |parts| && c in parts[i]
  {
    if |parts| > 1 && c !in sep && c !in parts[0] {
      JoinChars(parts[1..], sep, c);
    }
  }

  lemma HostNameHasNoComma(d: string)
    requires IsHostName(d)
    ensures ',' !in d
  {
    var labels: seq<string> :| |labels| >= 2 && Join(labels, ".") == WithoutTrailingDot(d)
      && forall i :: 0 <= i < |labels| ==> IsLabel(labels[i]);
    hide IsHostName, Join;
    forall i | 0 <= i < |labels| ensures ',' !in labels[i] {
      LabelHasNoComma(labels[i]);
    }
    hide IsLabel;
    if ',' in Join(labels, ".") {
      JoinChars(labels, ".", ',');
    }
    CommaStays(d);
  }

  lemma LabelHasNoComma(name: string)
    requires IsLabel(name)
    ensures ',' !in name
  {
    assert forall i :: 0 <= i < |name| ==> LabelChar(name[i]);
  }

  lemma CommaStays(d: string)
    ensures ',' in d ==> ',' in WithoutTrailingDot(d)
  {
  }

  // issueKey
  function IssueKey(domains: seq<string>): string {
    Join(domains, ",")
  }

  // Two different lists that are accepted never share their issuance history.
  lemma {:induction false} KeysDistinct(a: seq<string>, b: seq<string>)
    requires Validated(a).Accepted? && Validated(b).Accepted?
    requires IssueKey(a) == IssueKey(b)
    ensures a == b
  {
    AcceptedAreHostNames(a);
    AcceptedAreHostNames(b);
    forall i | 0 <= i < |a| ensures ',' !in a[i] {
      HostNameHasNoComma(a[i]);
    }
    forall i | 0 <= i < |b| ensures ',' !in b[i] {
      HostNameHasNoComma(b[i]);
    }
    JoinInjective(a, b, ',');
  }
}
