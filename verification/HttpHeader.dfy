// net/http's header map: keys are canonical names, values are lists.
module HttpHeader {
  import opened GoStrings

  type Header = map<string, seq<string>>

  predicate TokenChar(c: char) {
    || 'a' <= c <= 'z' || 'A' <= c <= 'Z' || '0' <= c <= '9'
    || c == '-' || c == '_' || c == '.' || c == '!' || c == '#' || c == '$' || c == '%' || c == '&'
    || c == '\'' || c == '*' || c == '+' || c == '^' || c == '`' || c == '|' || c == '~'
  }

  // Names with any other character are used unchanged by net/http.
  predicate ValidName(name: string) {
    name != "" && forall i | 0 <= i < |name| :: TokenChar(name[i])
  }

  // textproto.CanonicalMIMEHeaderKey: upper case at the start and after '-'.
  function Canonical(name: string): (r: string)
    ensures |r| == |name|
  {
    if ValidName(name) then
      seq(|name|, i requires 0 <= i < |name| => CanonicalChar(name, i))
    else name
  }

  function CanonicalChar(name: string, i: nat): char
    requires i < |name|
  {
    if i == 0 || name[i - 1] == '-' then UpperChar(name[i]) else LowerChar(name[i])
  }

  function Get(h: Header, name: string): string {
    var k := Canonical(name);
    if k in h && |h[k]| > 0 then h[k][0] else ""
  }

  function Set(h: Header, name: string, value: string): Header {
    h[Canonical(name) := [value]]
  }

  function Del(h: Header, name: string): Header {
    h - {Canonical(name)}
  }

  lemma CaseChange(c: char)
    ensures LowerChar(UpperChar(c)) == LowerChar(c) == LowerChar(LowerChar(c))
  {
  }

  // A name that is already in canonical form.
  lemma IsCanonical(name: string)
    requires forall i :: 0 <= i < |name| ==> CanonicalChar(name, i) == name[i]
    ensures Canonical(name) == name
  {
    if ValidName(name) {
      assert forall i | 0 <= i < |name| :: Canonical(name)[i] == CanonicalChar(name, i);
    }
  }

  lemma CanonicalConstants()
    ensures Canonical("X-Forwarded-For") == "X-Forwarded-For"
    ensures Canonical("X-Forwarded-Host") == "X-Forwarded-Host"
    ensures Canonical("X-Forwarded-Proto") == "X-Forwarded-Proto"
    ensures Canonical("Authorization") == "Authorization"
    ensures Canonical("Host") == "Host"
    ensures Canonical("Via") == "Via"
  {
    hide *;
    XForwardedForIsCanonical();
    XForwardedHostIsCanonical();
    XForwardedProtoIsCanonical();
    OtherNamesAreCanonical();
  }

  lemma XForwardedForIsCanonical()
    ensures Canonical("X-Forwarded-For") == "X-Forwarded-For"
  {
    hide Canonical;
    IsCanonical("X-Forwarded-For");
  }

  lemma XForwardedHostIsCanonical()
    ensures Canonical("X-Forwarded-Host") == "X-Forwarded-Host"
  {
    hide Canonical;
    IsCanonical("X-Forwarded-Host");
  }

  lemma XForwardedProtoIsCanonical()
    ensures Canonical("X-Forwarded-Proto") == "X-Forwarded-Proto"
  {
    hide Canonical;
    IsCanonical("X-Forwarded-Proto");
  }

  lemma OtherNamesAreCanonical()
    ensures Canonical("Authorization") == "Authorization"
    ensures Canonical("Host") == "Host"
    ensures Canonical("Via") == "Via"
  {
    hide Canonical;
    IsCanonical("Authorization");
    IsCanonical("Host");
    IsCanonical("Via");
  }

  // Names that differ in more than case never share a key.
  lemma CanonicalKeepsFold(name: string)
    ensures EqualFold(Canonical(name), name)
  {
    var c := Canonical(name);
    forall i | 0 <= i < |name| ensures ToLower(c)[i] == ToLower(name)[i] {
      CaseChange(name[i]);
    }
  }

  // Valid names that differ in case only share their key.
  lemma FoldSharesKey(a: string, b: string)
    requires ValidName(a) && ValidName(b) && EqualFold(a, b)
    ensures Canonical(a) == Canonical(b)
  {
    forall i | 0 <= i < |a| ensures Canonical(a)[i] == Canonical(b)[i] {
      FoldedChars(a, b, i);
      if i > 0 {
        FoldedChars(a, b, i - 1);
      }
    }
  }

  lemma FoldedChars(a: string, b: string, i: nat)
    requires EqualFold(a, b) && i < |a|
    ensures |a| == |b|
    ensures LowerChar(a[i]) == LowerChar(b[i])
    ensures UpperChar(a[i]) == UpperChar(b[i])
    ensures a[i] == '-' <==> b[i] == '-'
  {
    assert |a| == |ToLower(a)| == |b|;
    assert ToLower(a)[i] == ToLower(b)[i];
  }

  // Case does not affect validity.
  lemma FoldKeepsValid(a: string, b: string)
    requires ValidName(a) && EqualFold(a, b)
    ensures ValidName(b)
  {
    assert |a| == |ToLower(a)| == |b|;
    forall i | 0 <= i < |b| ensures TokenChar(b[i]) {
      FoldedChars(a, b, i);
      assert TokenChar(a[i]);
    }
  }
}
