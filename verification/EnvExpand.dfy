// config.go: substitution of environment variables in the configuration text,
// before it is parsed.
//
//   ${env.NAME}  ${env.NAME:default}        \${env.   the six characters ${env.
module EnvExpand {
  import opened GoStrings
  import HeaderTemplate

  type Env = map<string, string>

  predicate AtEnv(s: string) {
    "${env." <= s
  }

  predicate AtEscapedEnv(s: string) {
    "\\${env." <= s
  }

  // The value of NAME or NAME:default.
  function Lookup(inner: string, env: Env): string {
    var colon := IndexByte(inner, ':');
    var name := if colon >= 0 then inner[..colon] else inner;
    var default := if colon >= 0 then inner[colon + 1..] else "";
    if name in env then env[name] else default
  }

  // The one-pass meaning: the text is read once from left to right, and a
  // substituted value is never read again. A reference that is never closed
  // leaves everything from it on as it is, escapes included.
  function Expanded(s: string, env: Env): string
    decreases |s|
  {
    if s == "" then ""
    else if AtEscapedEnv(s) then "${env." + Expanded(s[7..], env)
    else if AtEnv(s) then
      var end := IndexByte(s[6..], '}');
      if end < 0 then s
      else Lookup(s[6..][..end], env) + Expanded(s[6..][end + 1..], env)
    else [s[0]] + Expanded(s[1..], env)
  }

  lemma {:induction false} ExpandPlain(s: string, k: nat, env: Env)
    requires k <= |s|
    requires forall i | 0 <= i < k :: !AtEnv(s[i..]) && !AtEscapedEnv(s[i..])
    ensures Expanded(s, env) == s[..k] + Expanded(s[k..], env)
    decreases k
  {
    hide *;
    assert s[0..] == s;
    if k == 0 {
      assert s[..0] + Expanded(s, env) == Expanded(s, env);
    } else {
      forall i | 0 <= i < k - 1 ensures !AtEnv(s[1..][i..]) && !AtEscapedEnv(s[1..][i..]) {
        assert s[1..][i..] == s[i + 1..];
      }
      ExpandChar(s, env);
      ExpandPlain(s[1..], k - 1, env);
      assert s[1..][k - 1..] == s[k..];
      Assoc([s[0]], s[1..][..k - 1], Expanded(s[k..], env));
      assert [s[0]] + s[1..][..k - 1] == s[..k];
    }
  }

  lemma ExpandChar(s: string, env: Env)
    requires s != "" && !AtEnv(s) && !AtEscapedEnv(s)
    ensures Expanded(s, env) == [s[0]] + Expanded(s[1..], env)
  {
    hide Lookup, AtEnv, AtEscapedEnv;
  }

  lemma EscapeCoversReference(s: string)
    ensures AtEscapedEnv(s) <==> s != "" && s[0] == '\\' && AtEnv(s[1..])
  {
    if AtEscapedEnv(s) {
      assert s[..7] == "\\${env.";
      assert s[1..][..6] == s[..7][1..] == "${env.";
    }
  }

  lemma NothingBefore(s: string, k: nat)
    requires var escaped, normal := Index(s, "\\${env."), Index(s, "${env.");
      k <= |s| && (escaped < 0 || k <= escaped) && (normal < 0 || k <= normal)
    ensures forall i | 0 <= i < k :: !AtEnv(s[i..]) && !AtEscapedEnv(s[i..])
  {
    forall i | 0 <= i < k ensures !AtEnv(s[i..]) && !AtEscapedEnv(s[i..]) {
      assert !OccursAt(s, "${env.", i) && !OccursAt(s, "\\${env.", i);
    }
  }

  lemma ExpandEmpty(env: Env)
    ensures Expanded("", env) == ""
  {
  }

  lemma ExpandEscape(s: string, env: Env)
    requires AtEscapedEnv(s)
    ensures Expanded(s, env) == "${env." + Expanded(s[7..], env)
  {
  }

  lemma ExpandOpen(s: string, env: Env)
    requires AtEnv(s)
    ensures IndexByte(s[6..], '}') < 0 ==> Expanded(s, env) == "${env." + s[6..]
  {
    hide Lookup;
    EscapeCoversReference(s);
    assert s == "${env." + s[6..];
  }

  lemma ExpandReference(s: string, end: nat, env: Env)
    requires AtEnv(s) && end == IndexByte(s[6..], '}')
    ensures Expanded(s, env) == Lookup(s[6..][..end], env) + Expanded(s[6..][end + 1..], env)
  {
    hide Lookup;
    EscapeCoversReference(s);
  }

  // The cases of one iteration of the loop, after acc has been written.

  lemma NoPattern(s: string, env: Env)
    requires Index(s, "\\${env.") < 0 && Index(s, "${env.") < 0
    ensures Expanded(s, env) == s
  {
    hide Expanded;
    NothingBefore(s, |s|);
    ExpandPlain(s, |s|, env);
    ExpandEmpty(env);
    assert s[..|s|] == s && s[|s|..] == "" && s + "" == s;
  }

  lemma EscapedFirst(acc: string, s: string, k: nat, env: Env)
    requires k == Index(s, "\\${env.") && (Index(s, "${env.") < 0 || k < Index(s, "${env."))
    ensures k + 7 <= |s|
    ensures acc + Expanded(s, env) == acc + s[..k] + "${env." + Expanded(s[k + 7..], env)
  {
    NothingBefore(s, k);
    ExpandPlain(s, k, env);
    ExpandEscape(s[k..], env);
    hide Expanded, AtEnv, AtEscapedEnv;
    assert s[k..][7..] == s[k + 7..];
    var rest := Expanded(s[k + 7..], env);
    Assoc(acc, s[..k], "${env." + rest);
    Assoc(acc + s[..k], "${env.", rest);
  }

  lemma ReferenceFirst(acc: string, s: string, k: nat, env: Env)
    requires k == Index(s, "${env.") && (Index(s, "\\${env.") < 0 || k <= Index(s, "\\${env."))
    ensures k + 6 <= |s|
    ensures AtEnv(s[k..]) && s[k..][6..] == s[k + 6..]
    ensures acc + Expanded(s, env) == acc + s[..k] + Expanded(s[k..], env)
  {
    hide Expanded;
    NothingBefore(s, k);
    ExpandPlain(s, k, env);
    Assoc(acc, s[..k], Expanded(s[k..], env));
  }

  lemma ReferenceStep(acc: string, s: string, end: int, env: Env)
    requires AtEnv(s) && end == IndexByte(s[6..], '}')
    ensures end < 0 ==> acc + Expanded(s, env) == acc + "${env." + s[6..]
    ensures end >= 0 ==>
      acc + Expanded(s, env) == acc + Lookup(s[6..][..end], env) + Expanded(s[6..][end + 1..], env)
  {
    if end < 0 {
      ExpandOpen(s, env);
      hide Expanded, AtEnv;
      Assoc(acc, "${env.", s[6..]);
    } else {
      ExpandReference(s, end, env);
      hide Expanded, Lookup, AtEnv;
      Assoc(acc, Lookup(s[6..][..end], env), Expanded(s[6..][end + 1..], env));
    }
  }

  // expandEnvVars
  method ExpandEnvVars(data: string, env: Env) returns (result: string)
    ensures result == Expanded(data, env)
  {
    hide Expanded, Lookup, AtEnv, AtEscapedEnv, OccursAt;
    result := "";
    var s := data;
    while true
      invariant result + Expanded(s, env) == Expanded(data, env)
      decreases |s|
    {
      var escapedIdx := Index(s, "\\${env.");
      var normalIdx := Index(s, "${env.");
      if normalIdx < 0 && escapedIdx < 0 {
        NoPattern(s, env);
        result := result + s;
        break;
      }
      if escapedIdx >= 0 && (normalIdx < 0 || escapedIdx < normalIdx) {
        EscapedFirst(result, s, escapedIdx, env);
        result := result + s[..escapedIdx];
        result := result + "${env.";
        s := s[escapedIdx + 7..];
        continue;
      }
      ReferenceFirst(result, s, normalIdx, env);
      result := result + s[..normalIdx];
      ghost var reference := s[normalIdx..];
      s := s[normalIdx + 6..];
      var end := IndexByte(s, '}');
      ReferenceStep(result, reference, end, env);
      if end < 0 {
        result := result + "${env.";
        result := result + s;
        break;
      }
      var val := Substitute(s[..end], env);
      s := s[end + 1..];
      result := result + val;
    }
  }

  // The value of one reference: the variable, its default, or nothing.
  method Substitute(inner: string, env: Env) returns (val: string)
    ensures val == Lookup(inner, env)
  {
    var varName := inner;
    val := "";
    var colonIdx := IndexByte(inner, ':');
    if colonIdx >= 0 {
      varName := inner[..colonIdx];
      val := inner[colonIdx + 1..];
    }
    if varName in env {
      val := env[varName];
    }
  }

  lemma LookupIs(inner: string, env: Env, val: string)
    requires var colon := IndexByte(inner, ':');
             var name := if colon >= 0 then inner[..colon] else inner;
             val == if name in env then env[name] else if colon >= 0 then inner[colon + 1..] else ""
    ensures Lookup(inner, env) == val
  {
  }

  // Reading token by token

  // A reference starts at i and is never closed.
  ghost predicate OpenAt(s: string, i: int) {
    0 <= i <= |s| && AtEnv(s[i..]) && (i == 0 || s[i - 1] != '\\') && '}' !in s[i..]
  }

  // Length and value of the first token: an escape, a closed reference or a character.
  function StepLen(s: string): (k: nat)
    requires s != ""
    ensures 1 <= k <= |s|
  {
    if AtEscapedEnv(s) then 7
    else if AtEnv(s) && IndexByte(s[6..], '}') >= 0 then 6 + IndexByte(s[6..], '}') + 1
    else 1
  }

  function StepText(s: string, env: Env): string
    requires s != ""
  {
    if AtEscapedEnv(s) then "${env."
    else if AtEnv(s) && IndexByte(s[6..], '}') >= 0 then Lookup(s[6..][..IndexByte(s[6..], '}')], env)
    else [s[0]]
  }

  lemma OpenAtFront(s: string)
    requires AtEnv(s)
    ensures OpenAt(s, 0) <==> IndexByte(s[6..], '}') < 0
  {
    assert s[0..] == s && s == "${env." + s[6..];
    assert '}' in s <==> '}' in s[6..];
  }

  lemma ExpandStep(s: string, env: Env)
    requires s != "" && !OpenAt(s, 0)
    ensures Expanded(s, env) == StepText(s, env) + Expanded(s[StepLen(s)..], env)
  {
    hide Lookup;
    if !AtEscapedEnv(s) && AtEnv(s) {
      OpenAtFront(s);
      var end := IndexByte(s[6..], '}');
      assert s[6..][end + 1..] == s[6 + end + 1..];
    }
  }

  // No unclosed reference begins inside the first token.
  lemma OpenShift(s: string, i: int)
    requires s != "" && !OpenAt(s, 0) && 0 <= i <= |s|
    ensures OpenAt(s, i) <==> i >= StepLen(s) && OpenAt(s[StepLen(s)..], i - StepLen(s))
  {
    var k := StepLen(s);
    if i >= k {
      assert s[k..][i - k..] == s[i..];
      BeforeStepEnd(s);
    } else if i > 0 && OpenAt(s, i) {
      InsideStep(s, i);
    }
  }

  // What stands before the end of the first token does not escape what follows.
  lemma BeforeStepEnd(s: string)
    requires s != "" && !OpenAt(s, 0)
    ensures var k := StepLen(s); k < |s| && AtEnv(s[k..]) ==> s[k - 1] != '\\'
  {
    if AtEscapedEnv(s) {
      assert s[..7][6] == '.';
    } else if AtEnv(s) {
      OpenAtFront(s);
      var end := IndexByte(s[6..], '}');
      assert s[6..][end] == s[6 + end];
    } else {
      EscapeCoversReference(s);
    }
  }

  lemma InsideStep(s: string, i: int)
    requires s != "" && !OpenAt(s, 0) && 0 < i < StepLen(s)
    ensures !OpenAt(s, i)
  {
    if AtEscapedEnv(s) {
      assert s[0] == '\\' && s[..7] == "\\${env.";
      if AtEnv(s[i..]) {
        assert s[i..][0] == '$' && s[i] == s[..7][i];
      }
    } else if AtEnv(s) {
      OpenAtFront(s);
      var end := IndexByte(s[6..], '}');
      assert s[6..][end] == s[6 + end] && s[i..][6 + end - i] == '}';
    }
  }

  lemma StepConcat(a: string, b: string, env: Env)
    requires a != "" && !OpenAt(a, 0) && AtEnv(b) && a[|a| - 1] != '\\'
    ensures !OpenAt(a + b, 0) && StepLen(a + b) == StepLen(a) && StepText(a + b, env) == StepText(a, env)
    ensures (a + b)[StepLen(a)..] == a[StepLen(a)..] + b
  {
    hide Lookup, AtEnv, AtEscapedEnv;
    if AtEscapedEnv(a) {
      MarkerStays(a, b);
      NotOpen(a + b);
    } else if AtEnv(a) {
      ReferenceConcat(a, b, env);
    } else {
      NoNewMarker(a, b);
      NotOpen(a + b);
    }
  }

  lemma NotOpen(s: string)
    requires !AtEnv(s)
    ensures !OpenAt(s, 0)
  {
    hide AtEnv;
    assert s[0..] == s;
  }

  lemma ReferenceConcat(a: string, b: string, env: Env)
    requires AtEnv(a) && !OpenAt(a, 0) && a != ""
    ensures !OpenAt(a + b, 0) && StepLen(a + b) == StepLen(a) && StepText(a + b, env) == StepText(a, env)
    ensures (a + b)[StepLen(a)..] == a[StepLen(a)..] + b
  {
    OpenAtFront(a);
    MarkerStays(a, b);
    OpenAtFront(a + b);
    EscapeCoversReference(a);
    assert a[0] == "${env."[0];
    CutConcat(a, b, 6);
    IndexInFront(a[6..], b);
    var end := IndexByte(a[6..], '}');
    CutConcat(a[6..], b, end);
    CutConcat(a, b, 6 + end + 1);
    hide *;
    ReferenceToken(a, env);
    ReferenceToken(a + b, env);
  }

  lemma ReferenceToken(s: string, env: Env)
    requires |s| >= 6 && AtEnv(s) && !AtEscapedEnv(s) && IndexByte(s[6..], '}') >= 0
    ensures var end := IndexByte(s[6..], '}');
      StepLen(s) == 6 + end + 1 && StepText(s, env) == Lookup(s[6..][..end], env)
  {
    hide AtEnv, AtEscapedEnv, IndexByte, Lookup;
  }

  lemma MarkerStays(a: string, b: string)
    ensures AtEscapedEnv(a) ==> AtEscapedEnv(a + b) && !AtEnv(a + b) && |a| >= 7
    ensures AtEnv(a) ==> AtEnv(a + b) && !AtEscapedEnv(a + b) && |a| >= 6
  {
    EscapeCoversReference(a + b);
    if AtEscapedEnv(a) {
      assert (a + b)[..7] == a[..7];
    }
    if AtEnv(a) {
      assert (a + b)[..6] == a[..6] && a[0] == "${env."[0];
    }
  }

  lemma IndexInFront(a: string, b: string)
    requires IndexByte(a, '}') >= 0
    ensures IndexByte(a + b, '}') == IndexByte(a, '}')
  {
    var i := IndexByte(a, '}');
    assert (a + b)[i] == '}' && forall j | 0 <= j < i :: (a + b)[j] == a[j];
  }

  // A reference that follows does not complete a marker begun before it.
  lemma NoNewReference(a: string, b: string)
    requires a != "" && AtEnv(b) && !AtEnv(a)
    ensures !AtEnv(a + b)
  {
    var all := a + b;
    assert all[|a|] == '$';
  }

  lemma NoNewMarker(a: string, b: string)
    requires a != "" && AtEnv(b) && a[|a| - 1] != '\\' && !AtEnv(a) && !AtEscapedEnv(a)
    ensures !AtEnv(a + b) && !AtEscapedEnv(a + b)
  {
    NoNewReference(a, b);
    EscapeCoversReference(a);
    EscapeCoversReference(a + b);
    hide AtEnv, AtEscapedEnv;
    assert (a + b)[1..] == a[1..] + b;
    if |a| > 1 && !AtEnv(a[1..]) {
      NoNewReference(a[1..], b);
    }
  }

  // Substitution splits in front of a reference.
  lemma {:induction false} ExpandConcat(a: string, b: string, env: Env)
    requires AtEnv(b) && (a != "" ==> a[|a| - 1] != '\\')
    requires forall i :: !OpenAt(a, i)
    ensures Expanded(a + b, env) == Expanded(a, env) + Expanded(b, env)
    decreases |a|
  {
    hide Expanded, OpenAt, StepLen, StepText, AtEnv;
    if a == "" {
      assert a + b == b;
      ExpandEmpty(env);
      assert "" + Expanded(b, env) == Expanded(b, env);
    } else {
      var k := StepLen(a);
      var rest := a[k..];
      StepConcat(a, b, env);
      ExpandStep(a, env);
      ExpandStep(a + b, env);
      forall i ensures !OpenAt(rest, i) {
        OpenInside(rest, i);
        if 0 <= i <= |rest| {
          OpenShift(a, i + k);
        }
      }
      assert rest != "" ==> rest[|rest| - 1] == a[|a| - 1];
      ExpandConcat(rest, b, env);
      Assoc(StepText(a, env), Expanded(rest, env), Expanded(b, env));
    }
  }

  lemma OpenInside(s: string, i: int)
    ensures OpenAt(s, i) ==> 0 <= i <= |s|
  {
  }

  // Whatever a variable holds, references included, appears in the result as it is,
  // after any text that leaves no reference open and does not escape the next one.
  lemma SubstitutedOnce(before: string, name: string, after: string, env: Env)
    requires (before != "" ==> before[|before| - 1] != '\\') && forall i :: !OpenAt(before, i)
    requires '}' !in name && ':' !in name && name in env
    ensures Expanded(before + "${env." + name + "}" + after, env)
         == Expanded(before, env) + env[name] + Expanded(after, env)
  {
    hide *;
    var t := "${env." + name + "}" + after;
    ExpandNamed(name, after, env);
    ExpandConcat(before, t, env);
    assert before + "${env." + name + "}" + after == before + t;
    Assoc(Expanded(before, env), env[name], Expanded(after, env));
  }

  // A reference with a default: the variable if it is set, empty or not, else the
  // default. Without a default an unset variable is empty.
  lemma DefaultIsUsed(before: string, name: string, default: string, after: string, env: Env)
    requires (before != "" ==> before[|before| - 1] != '\\') && forall i :: !OpenAt(before, i)
    requires '}' !in name && ':' !in name && '}' !in default
    ensures Expanded(before + ("${env." + name + ":" + default + "}" + after), env)
         == Expanded(before, env) + ((if name in env then env[name] else default) + Expanded(after, env))
    ensures name !in env ==>
      Expanded(before + ("${env." + name + "}" + after), env) == Expanded(before, env) + Expanded(after, env)
  {
    hide *;
    var inner := name + ":" + default;
    LookupDefault(name, default, env);
    ExpandInner(inner, after, env);
    assert "${env." + name + ":" + default + "}" + after == "${env." + inner + "}" + after;
    ExpandConcat(before, "${env." + inner + "}" + after, env);
    ExpandInner(name, after, env);
    ExpandConcat(before, "${env." + name + "}" + after, env);
    assert name !in env ==> "" + Expanded(after, env) == Expanded(after, env);
  }

  lemma LookupDefault(name: string, default: string, env: Env)
    requires ':' !in name && '}' !in name && '}' !in default
    ensures '}' !in name + ":" + default
    ensures Lookup(name + ":" + default, env) == if name in env then env[name] else default
    ensures Lookup(name, env) == if name in env then env[name] else ""
  {
    var inner := name + ":" + default;
    assert inner[|name|] == ':' && inner[..|name|] == name && inner[|name| + 1..] == default;
    assert IndexByte(inner, ':') == |name| && IndexByte(name, ':') == -1;
    hide IndexByte;
  }

  lemma ExpandInner(inner: string, after: string, env: Env)
    requires '}' !in inner
    ensures AtEnv("${env." + inner + "}" + after)
    ensures Expanded("${env." + inner + "}" + after, env) == Lookup(inner, env) + Expanded(after, env)
  {
    hide Expanded, Lookup;
    var t := "${env." + inner + "}" + after;
    var rest := t[6..];
    assert rest == inner + "}" + after;
    assert rest[|inner|] == '}' && rest[..|inner|] == inner && rest[|inner| + 1..] == after;
    assert IndexByte(rest, '}') == |inner|;
    ExpandReference(t, |inner|, env);
  }

  lemma ExpandNamed(name: string, after: string, env: Env)
    requires '}' !in name && ':' !in name && name in env
    ensures AtEnv("${env." + name + "}" + after)
    ensures Expanded("${env." + name + "}" + after, env) == env[name] + Expanded(after, env)
  {
    hide Expanded, Lookup;
    var t := "${env." + name + "}" + after;
    var rest := t[6..];
    assert rest == name + "}" + after;
    assert rest[|name|] == '}' && rest[..|name|] == name && rest[|name| + 1..] == after;
    assert IndexByte(rest, '}') == |name|;
    ExpandReference(t, |name|, env);
    LookupIs(name, env, env[name]);
  }

  // Unclosed references

  // The other way to read them: as literal text, with the reading going on behind.
  function Tolerant(s: string, env: Env): string
    decreases |s|
  {
    if s == "" then ""
    else if AtEscapedEnv(s) then "${env." + Tolerant(s[7..], env)
    else if AtEnv(s) then
      var end := IndexByte(s[6..], '}');
      if end < 0 then "${env." + Tolerant(s[6..], env)
      else Lookup(s[6..][..end], env) + Tolerant(s[6..][end + 1..], env)
    else [s[0]] + Tolerant(s[1..], env)
  }

  ghost predicate HasEscape(s: string) {
    exists j :: 0 <= j <= |s| && AtEscapedEnv(s[j..])
  }

  // An escape stands somewhere behind a reference that is never closed.
  ghost predicate EscapeBehindOpen(s: string) {
    exists i, j :: 0 <= i < j <= |s| && OpenAt(s, i) && AtEscapedEnv(s[j..])
  }

  lemma HasEscapeShift(s: string, k: nat)
    requires s != "" && !AtEscapedEnv(s) && k == if AtEnv(s) then 6 else 1
    ensures HasEscape(s) <==> HasEscape(s[k..])
  {
    if j :| 0 <= j <= |s| && AtEscapedEnv(s[j..]) {
      assert s[0..] == s;
      NoEscapeInMarker(s, j);
      assert s[k..][j - k..] == s[j..];
    }
    if j :| 0 <= j <= |s[k..]| && AtEscapedEnv(s[k..][j..]) {
      assert s[j + k..] == s[k..][j..];
    }
  }

  lemma NoEscapeInMarker(s: string, j: nat)
    requires j <= |s| && AtEscapedEnv(s[j..])
    ensures AtEnv(s) ==> j >= 6
  {
    assert s[j..][0] == '\\';
    assert forall i | 0 <= i < 6 :: "${env."[i] != '\\';
    assert j < 6 <= |s| ==> s[..6][j] == s[j];
  }

  // In a text without a brace the tolerant reading changes nothing but escapes, each
  // of which it shortens.
  lemma {:induction false} TolerantWithoutBrace(s: string, env: Env)
    requires '}' !in s
    ensures |Tolerant(s, env)| <= |s| && (Tolerant(s, env) == s <==> !HasEscape(s))
    decreases |s|
  {
    hide *;
    if s == "" {
      UnclosedEmpty(env);
    } else if AtEscapedEnv(s) {
      TolerantEscape(s, env);
      TolerantWithoutBrace(s[7..], env);
    } else {
      var k := TolerantLiteral(s, env);
      HasEscapeShift(s, k);
      TolerantWithoutBrace(s[k..], env);
      Cancel(s[..k], Tolerant(s[k..], env), s[k..]);
      assert s == s[..k] + s[k..];
    }
  }

  lemma TolerantEscape(s: string, env: Env)
    requires AtEscapedEnv(s)
    ensures |s| >= 7 && |Tolerant(s, env)| == 6 + |Tolerant(s[7..], env)| && HasEscape(s)
  {
    assert s[0..] == s;
  }

  lemma TolerantLiteral(s: string, env: Env) returns (k: nat)
    requires s != "" && '}' !in s && !AtEscapedEnv(s)
    ensures 0 < k <= |s| && (k == if AtEnv(s) then 6 else 1)
    ensures Tolerant(s, env) == s[..k] + Tolerant(s[k..], env)
  {
    hide Lookup;
    k := if AtEnv(s) then 6 else 1;
    assert AtEnv(s) ==> s[..6] == "${env." && IndexByte(s[6..], '}') < 0;
  }

  lemma Cancel(p: string, x: string, y: string)
    ensures p + x == p + y <==> x == y
  {
    assert (p + x)[|p|..] == x && (p + y)[|p|..] == y;
  }

  lemma BehindOpenAtFront(s: string)
    requires OpenAt(s, 0)
    ensures EscapeBehindOpen(s) <==> HasEscape(s[6..])
  {
    assert s[0..] == s;
    if i, j :| 0 <= i < j <= |s| && OpenAt(s, i) && AtEscapedEnv(s[j..]) {
      NoEscapeInMarker(s, j);
      assert s[6..][j - 6..] == s[j..];
    }
    if j :| 0 <= j <= |s[6..]| && AtEscapedEnv(s[6..][j..]) {
      assert s[j + 6..] == s[6..][j..];
      assert OpenAt(s, 0) && 0 < j + 6 <= |s| && AtEscapedEnv(s[j + 6..]);
    }
  }

  lemma BehindOpenShift(s: string)
    requires s != "" && !OpenAt(s, 0)
    ensures EscapeBehindOpen(s) <==> EscapeBehindOpen(s[StepLen(s)..])
  {
    hide OpenAt, AtEscapedEnv, StepLen;
    var k := StepLen(s);
    if i, j :| 0 <= i < j <= |s| && OpenAt(s, i) && AtEscapedEnv(s[j..]) {
      OpenInside(s, i);
      OpenShift(s, i);
      assert s[k..][j - k..] == s[j..];
      assert OpenAt(s[k..], i - k) && i - k < j - k <= |s[k..]| && AtEscapedEnv(s[k..][j - k..]);
    }
    if i, j :| 0 <= i < j <= |s[k..]| && OpenAt(s[k..], i) && AtEscapedEnv(s[k..][j..]) {
      OpenInside(s[k..], i);
      OpenShift(s, i + k);
      assert s[j + k..] == s[k..][j..];
      assert OpenAt(s, i + k) && i + k < j + k <= |s| && AtEscapedEnv(s[j + k..]);
    }
  }

  lemma TolerantStep(s: string, env: Env)
    requires s != "" && !OpenAt(s, 0)
    ensures Tolerant(s, env) == StepText(s, env) + Tolerant(s[StepLen(s)..], env)
  {
    hide Lookup;
    if !AtEscapedEnv(s) && AtEnv(s) {
      OpenAtFront(s);
      var end := IndexByte(s[6..], '}');
      assert s[6..][end + 1..] == s[6 + end + 1..];
    }
  }

  lemma OpenEnds(s: string, env: Env)
    requires OpenAt(s, 0)
    ensures s != "" && '}' !in s[6..] && s == "${env." + s[6..]
    ensures Expanded(s, env) == s && Tolerant(s, env) == "${env." + Tolerant(s[6..], env)
  {
    assert s[0..] == s;
    OpenAtFront(s);
    assert s[0] == "${env."[0];
  }

  // Giving up at an unclosed reference, as the code does, is the same as reading on
  // if and only if no escape stands behind one: the backslashes there stay.
  lemma {:induction false} UnclosedIff(s: string, env: Env)
    ensures Expanded(s, env) == Tolerant(s, env) <==> !EscapeBehindOpen(s)
    decreases |s|
  {
    hide Expanded, Tolerant, EscapeBehindOpen, OpenAt, HasEscape, StepText, StepLen;
    if s == "" {
      UnclosedEmpty(env);
    } else if OpenAt(s, 0) {
      OpenEnds(s, env);
      BehindOpenAtFront(s);
      TolerantWithoutBrace(s[6..], env);
      Cancel("${env.", Tolerant(s[6..], env), s[6..]);
    } else {
      var rest := s[StepLen(s)..];
      ExpandStep(s, env);
      TolerantStep(s, env);
      BehindOpenShift(s);
      UnclosedIff(rest, env);
      Cancel(StepText(s, env), Expanded(rest, env), Tolerant(rest, env));
    }
  }

  lemma UnclosedEmpty(env: Env)
    ensures Expanded("", env) == Tolerant("", env) == "" && !EscapeBehindOpen("") && !HasEscape("")
  {
  }

  // An input on which they differ.
  lemma UnclosedKeepsEscape(env: Env)
    ensures Expanded("${env.A \\${env.B", env) == "${env.A \\${env.B"
    ensures Tolerant("${env.A \\${env.B", env) != "${env.A \\${env.B"
  {
    var s := "${env.A \\${env.B";
    assert s[0..] == s && s[8..] == "\\${env.B";
    assert AtEnv(s) && '}' !in s;
    assert OpenAt(s, 0) && 0 < 8 <= |s| && AtEscapedEnv(s[8..]);
    OpenEnds(s, env);
    UnclosedIff(s, env);
  }

  // Escaping for the configuration file

  function EscapeEnv(text: string): string {
    if text == "" then ""
    else if AtEnv(text) then "\\${env." + EscapeEnv(text[6..])
    else [text[0]] + EscapeEnv(text[1..])
  }

  // Escaping inserts backslashes only in front of '$'.
  lemma {:induction false} EscapeKeepsPrefix(q: string, text: string)
    requires '$' !in q && '\\' !in q
    requires q <= EscapeEnv(text)
    ensures q <= text
    decreases |q|
  {
    if q != "" {
      assert q[0] in q;
      assert EscapeEnv(text)[0] == q[0];
      assert !AtEnv(text);
      assert EscapeEnv(text) == [text[0]] + EscapeEnv(text[1..]);
      assert q[1..] <= EscapeEnv(text)[1..] == EscapeEnv(text[1..]);
      EscapeKeepsPrefix(q[1..], text[1..]);
      assert q == [q[0]] + q[1..];
      assert text == [text[0]] + text[1..];
    }
  }

  lemma EscapedHasNoReference(text: string)
    ensures !AtEnv(EscapeEnv(text))
  {
    if AtEnv(EscapeEnv(text)) {
      var e := EscapeEnv(text);
      assert e[0] == '$';
      assert !AtEnv(text) && e == [text[0]] + EscapeEnv(text[1..]);
      assert e[..6] == "${env.";
      assert "{env." == e[..6][1..] <= EscapeEnv(text[1..]);
      EscapeKeepsPrefix("{env.", text[1..]);
    }
  }

  // Substitution takes the escaping back, whatever the environment holds.
  lemma {:induction false} ExpandUndoesEscape(text: string, env: Env)
    ensures Expanded(EscapeEnv(text), env) == text
    decreases |text|
  {
    hide Lookup, AtEscapedEnv;
    if text == "" {
    } else if AtEnv(text) {
      var tail := EscapeEnv(text[6..]);
      var s := "\\${env." + tail;
      assert s[7..] == tail;
      assert s[1..] == "${env." + tail;
      EscapeCoversReference(s);
      ExpandEscape(s, env);
      ExpandUndoesEscape(text[6..], env);
      assert text == "${env." + text[6..];
    } else {
      var tail := EscapeEnv(text[1..]);
      var s := [text[0]] + tail;
      assert s[1..] == tail;
      EscapedHasNoReference(text);
      EscapedHasNoReference(text[1..]);
      EscapeCoversReference(s);
      ExpandUndoesEscape(text[1..], env);
      assert text == [text[0]] + text[1..];
    }
  }

  // Both escapes together: any text can be written in the configuration file so
  // that the compiled header value is this text, as one constant.
  lemma TwoStageEscape(text: string, env: Env)
    ensures HeaderTemplate.Compiled(Expanded(EscapeEnv(HeaderTemplate.Escape(text)), env))
         == HeaderTemplate.ParsedHeaderValue([HeaderTemplate.Literal(text)], true)
  {
    ExpandUndoesEscape(HeaderTemplate.Escape(text), env);
    HeaderTemplate.EscapedIsConstant(text);
  }

  lemma {:induction false} NothingToEscape(s: string)
    requires '$' !in s
    ensures HeaderTemplate.Escape(s) == s && EscapeEnv(s) == s
  {
    HeaderTemplate.NothingToEscape(s);
    if s != "" {
      assert s[0] in s && s == [s[0]] + s[1..];
      NothingToEscape(s[1..]);
    }
    hide HeaderTemplate.Escape;
  }

  lemma EscapeSteps(c: char, s: string)
    requires c != '$'
    ensures HeaderTemplate.Escape([c] + s) == [c] + HeaderTemplate.Escape(s)
    ensures EscapeEnv([c] + s) == [c] + EscapeEnv(s)
  {
    assert ([c] + s)[1..] == s;
  }

  lemma EscapeAtReference(s: string)
    ensures HeaderTemplate.Escape("${" + s) == "\\${" + HeaderTemplate.Escape(s)
    ensures EscapeEnv("${env." + s) == "\\${env." + EscapeEnv(s)
  {
    assert ("${" + s)[2..] == s && ("${env." + s)[6..] == s;
  }

  // The documented edge case: the header text \${env.NAME} is written with three
  // backslashes.
  lemma DocumentedDoubleEscape(name: string)
    requires '$' !in name
    ensures EscapeEnv(HeaderTemplate.Escape("\\${env." + name + "}")) == "\\\\\\${env." + name + "}"
  {
    hide *;
    var tail := name + "}";
    NothingToEscape("env." + tail);
    NothingToEscape(tail);
    EscapeAtReference("env." + tail);
    EscapeAtReference(tail);
    EscapeSteps('\\', "${" + ("env." + tail));
    EscapeSteps('\\', "\\" + ("${env." + tail));
    EscapeSteps('\\', "${env." + tail);
    Regroup(name);
  }

  lemma Regroup(name: string)
    ensures var tail := name + "}";
      && "${" + ("env." + tail) == "${env." + tail
      && ['\\'] + ("${" + ("env." + tail)) == "\\${env." + name + "}"
      && "\\${" + ("env." + tail) == "\\" + ("${env." + tail)
      && ['\\'] + (['\\'] + ("\\${env." + tail)) == "\\\\\\${env." + name + "}"
  {
  }
}
