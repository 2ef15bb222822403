/**
 Access-control permissions, their one-line text form, and the back-fill of permissions
 that were added after a user was created.
 */
module Permissions {
  import opened Options
  import opened Strings
  import opened Decimals

  datatype Permission = Permission(resource: string, actions: int) {
    predicate WildAll() { actions == ALL_ACTIONS || actions < 0 }

    predicate Has(action: int) { WildAll() || (action >= 0 && Covers(actions, action)) }

    function Text(): string { resource + ['='] + Itoa(actions) }
  }

  const ALL_ACTIONS := 1024 * 1024 * 1024

  /** a & b == b, for numbers that are not negative. */
  predicate Covers(a: int, b: int)
    requires b >= 0
    decreases b
  {
    b == 0 || (a >= 0 && (b % 2 == 0 || a % 2 == 1) && Covers(a / 2, b / 2))
  }

  /** Bit `i` of a number that is not negative. */
  predicate Bit(n: nat, i: nat) { if i == 0 then n % 2 == 1 else Bit(n / 2, i - 1) }

  ghost predicate BitsWithin(b: nat, a: nat) { forall i: nat :: Bit(b, i) ==> Bit(a, i) }

  /** The test is bit by bit: every bit of the action is a bit of the permission. */
  lemma CoversBits(a: nat, b: nat)
    ensures Covers(a, b) <==> BitsWithin(b, a)
  {
    if Covers(a, b) {
      forall i: nat | Bit(b, i)
        ensures Bit(a, i)
      {
        CoversBit(a, b, i);
      }
    }
    if BitsWithin(b, a) {
      BitsCover(a, b);
    }
  }

  lemma {:induction false} CoversBit(a: nat, b: nat, i: nat)
    requires Covers(a, b) && Bit(b, i)
    ensures Bit(a, i)
    decreases i
  {
    if b == 0 {
      NoBits(i);
    } else if i > 0 {
      CoversBit(a / 2, b / 2, i - 1);
    }
  }

  lemma {:induction false} BitsCover(a: nat, b: nat)
    requires BitsWithin(b, a)
    ensures Covers(a, b)
    decreases b
  {
    if b != 0 {
      assert Bit(b, 0) ==> Bit(a, 0);
      forall i: nat
        ensures Bit(b / 2, i) ==> Bit(a / 2, i)
      {
        assert Bit(b, i + 1) ==> Bit(a, i + 1);
      }
      BitsCover(a / 2, b / 2);
    }
  }

  lemma {:induction false} NoBits(i: nat)
    ensures !Bit(0, i)
  {
    if i > 0 {
      NoBits(i - 1);
    }
  }

  /** A name that survives the text form: no separator in it and no white space around it. */
  predicate CleanName(name: string) {
    ';' !in name && '=' !in name && Trimmed(name)
  }

  ghost predicate Clean(perms: seq<Permission>) {
    forall i :: 0 <= i < |perms| ==> CleanName(perms[i].resource) && IsInt(perms[i].actions)
  }

  function Texts(perms: seq<Permission>): (lines: seq<string>)
    ensures |lines| == |perms|
  {
    if perms == [] then [] else Texts(perms[..|perms| - 1]) + [perms[|perms| - 1].Text()]
  }

  /** Entries separated by ';'. */
  function Marshal(perms: seq<Permission>): string {
    if perms == [] then "" else Join(Texts(perms), ';')
  }

  /** A line with exactly one '=' and a number after it; anything else is skipped. */
  function ParseLine(line: string): (r: seq<Permission>)
    ensures |r| <= 1
  {
    var parts := Split(line, '=');
    if |parts| != 2 then []
    else
      match Atoi(TrimSpace(parts[1]))
      case Some(n) => [Permission(TrimSpace(parts[0]), n)]
      case None => []
  }

  function Flatten(parts: seq<seq<Permission>>): seq<Permission> {
    if parts == [] then [] else Flatten(parts[..|parts| - 1]) + parts[|parts| - 1]
  }

  function ParseEach(lines: seq<string>): (parts: seq<seq<Permission>>)
    ensures |parts| == |lines|
  {
    seq(|lines|, i requires 0 <= i < |lines| => ParseLine(lines[i]))
  }

  function ParseLines(lines: seq<string>): seq<Permission> { Flatten(ParseEach(lines)) }

  function Unmarshal(s: string): seq<Permission> {
    if s == "" then [] else ParseLines(Split(s, ';'))
  }

  /******* The codec *******/

  lemma SplitAssignment(name: string, number: string)
    requires '=' !in name && '=' !in number
    ensures Split(name + ['='] + number, '=') == [name, number]
  {
    SplitAtFirst(name, number, '=');
    assert Split(number, '=') == [number];
  }

  lemma ParseText(p: Permission)
    requires CleanName(p.resource) && IsInt(p.actions)
    ensures ParseLine(p.Text()) == [p] && ';' !in p.Text()
  {
    var number := Itoa(p.actions);
    ItoaPlain(p.actions);
    AtoiItoa(p.actions);
    SplitAssignment(p.resource, number);
    assert TrimSpace(number) == number && TrimSpace(p.resource) == p.resource;
  }

  lemma {:induction false} FlattenSingles(parts: seq<seq<Permission>>, perms: seq<Permission>)
    requires |parts| == |perms| && forall i :: 0 <= i < |parts| ==> parts[i] == [perms[i]]
    ensures Flatten(parts) == perms
  {
    if parts != [] {
      var n := |parts| - 1;
      FlattenSingles(parts[..n], perms[..n]);
      assert perms == perms[..n] + [perms[n]];
    }
  }

  lemma ParseTexts(perms: seq<Permission>)
    requires Clean(perms)
    ensures ParseLines(Texts(perms)) == perms
  {
    var parts := ParseEach(Texts(perms));
    forall i | 0 <= i < |perms|
      ensures parts[i] == [perms[i]]
    {
      TextAt(perms, i);
      ParseText(perms[i]);
    }
    FlattenSingles(parts, perms);
  }

  lemma TextsPlain(perms: seq<Permission>)
    requires Clean(perms)
    ensures forall i :: 0 <= i < |perms| ==> ';' !in Texts(perms)[i]
  {
    forall i | 0 <= i < |perms|
      ensures ';' !in Texts(perms)[i]
    {
      TextAt(perms, i);
      ParseText(perms[i]);
    }
  }

  lemma {:induction false} TextAt(perms: seq<Permission>, i: nat)
    requires i < |perms|
    ensures Texts(perms)[i] == perms[i].Text()
  {
    if i < |perms| - 1 {
      TextAt(perms[..|perms| - 1], i);
    }
  }

  lemma JoinNonEmpty(perms: seq<Permission>)
    requires perms != []
    ensures Marshal(perms) != ""
  {
    TextAt(perms, 0);
    assert '=' in perms[0].Text();
  }

  lemma ParseLineClean(line: string)
    requires ';' !in line
    ensures Clean(ParseLine(line))
  {
    var parts := Split(line, '=');
    SplitPieces(line, '=');
    SplitChars(line, '=', ';');
    TrimSpaceChars(parts[0], ';');
    TrimSpaceChars(parts[0], '=');
  }

  lemma {:induction false} FlattenClean(parts: seq<seq<Permission>>)
    requires forall i :: 0 <= i < |parts| ==> Clean(parts[i])
    ensures Clean(Flatten(parts))
  {
    if parts != [] {
      FlattenClean(parts[..|parts| - 1]);
    }
  }

  lemma ParseLinesClean(lines: seq<string>)
    requires forall i :: 0 <= i < |lines| ==> ';' !in lines[i]
    ensures Clean(ParseLines(lines))
  {
    forall i | 0 <= i < |lines|
      ensures Clean(ParseEach(lines)[i])
    {
      ParseLineClean(lines[i]);
    }
    FlattenClean(ParseEach(lines));
  }

  /** Whatever the text, the permissions read from it have clean names and numbers in range. */
  lemma UnmarshalClean(s: string)
    ensures Clean(Unmarshal(s))
  {
    if s != "" {
      SplitPieces(s, ';');
      ParseLinesClean(Split(s, ';'));
    }
  }

  /** Reading undoes writing exactly for lists of clean names with numbers in range. */
  lemma RoundTripExactly(perms: seq<Permission>)
    ensures Unmarshal(Marshal(perms)) == perms <==> Clean(perms)
  {
    UnmarshalClean(Marshal(perms));
    if Clean(perms) && perms != [] {
      ParseTexts(perms);
      TextsPlain(perms);
      SplitJoin(Texts(perms), ';');
      JoinNonEmpty(perms);
    }
  }

  /** Reading, writing and reading again is reading once, for every text. */
  lemma RereadSame(s: string)
    ensures Unmarshal(Marshal(Unmarshal(s))) == Unmarshal(s)
  {
    UnmarshalClean(s);
    RoundTripExactly(Unmarshal(s));
  }

  /******* What a list of permissions grants *******/

  /** The last entry for a resource counts. */
  function Lookup(perms: seq<Permission>, resource: string): Option<Permission> {
    if perms == [] then None
    else if perms[|perms| - 1].resource == resource then Some(perms[|perms| - 1])
    else Lookup(perms[..|perms| - 1], resource)
  }

  predicate Wildcard(perms: seq<Permission>) {
    exists i :: 0 <= i < |perms| && perms[i].resource == "*" && perms[i].WildAll()
  }

  predicate Grants(perms: seq<Permission>, resource: string, action: int) {
    || Wildcard(perms)
    || (Lookup(perms, resource).Some? && Lookup(perms, resource).value.Has(action))
  }

  lemma {:induction false} LookupConcat(a: seq<Permission>, b: seq<Permission>, resource: string)
    ensures Lookup(a + b, resource) == if Lookup(b, resource).Some? then Lookup(b, resource) else Lookup(a, resource)
  {
    if b == [] {
      assert a + b == a;
    } else {
      assert (a + b)[..|a + b| - 1] == a + b[..|b| - 1];
      LookupConcat(a, b[..|b| - 1], resource);
    }
  }

  /******* Back-fill *******/

  /** Defaults for resources that the list does not mention, in order. */
  function Missing(existing: seq<Permission>, defaults: seq<Permission>): (m: seq<Permission>)
    ensures |m| <= |defaults|
  {
    if defaults == [] then []
    else
      var last := defaults[|defaults| - 1];
      Missing(existing, defaults[..|defaults| - 1]) +
      (if Lookup(existing, last.resource).None? then [last] else [])
  }

  function BackfillWith(s: string, defaults: seq<Permission>): string {
    var existing := Unmarshal(s);
    var missing := Missing(existing, defaults);
    if missing == [] then s else Marshal(existing + missing)
  }

  lemma {:induction false} MissingClean(existing: seq<Permission>, defaults: seq<Permission>)
    requires Clean(defaults)
    ensures Clean(Missing(existing, defaults))
  {
    if defaults != [] {
      MissingClean(existing, defaults[..|defaults| - 1]);
    }
  }

  lemma {:induction false} MissingLookup(existing: seq<Permission>, defaults: seq<Permission>, resource: string)
    ensures Lookup(Missing(existing, defaults), resource) ==
            if Lookup(existing, resource).Some? then None else Lookup(defaults, resource)
  {
    if defaults != [] {
      var init, last := defaults[..|defaults| - 1], defaults[|defaults| - 1];
      MissingLookup(existing, init, resource);
      LookupConcat(Missing(existing, init), if Lookup(existing, last.resource).None? then [last] else [], resource);
      assert Lookup([last], resource) == if last.resource == resource then Some(last) else None;
    }
  }

  lemma CleanConcat(a: seq<Permission>, b: seq<Permission>)
    requires Clean(a) && Clean(b)
    ensures Clean(a + b)
  {
  }

  /** The back-filled text reads as the old permissions followed by the missing defaults. */
  lemma BackfillReads(s: string, defaults: seq<Permission>)
    requires Clean(defaults)
    ensures Unmarshal(BackfillWith(s, defaults)) == Unmarshal(s) + Missing(Unmarshal(s), defaults)
  {
    var existing := Unmarshal(s);
    UnmarshalClean(s);
    MissingClean(existing, defaults);
    CleanConcat(existing, Missing(existing, defaults));
    RoundTripExactly(existing + Missing(existing, defaults));
    if Missing(existing, defaults) == [] {
      assert existing + [] == existing;
    }
  }

  lemma {:induction false} NothingMissing(perms: seq<Permission>, defaults: seq<Permission>)
    requires forall i :: 0 <= i < |defaults| ==> Lookup(perms, defaults[i].resource).Some?
    ensures Missing(perms, defaults) == []
  {
    if defaults != [] {
      NothingMissing(perms, defaults[..|defaults| - 1]);
    }
  }

  lemma {:induction false} LookupPresent(perms: seq<Permission>, i: nat)
    requires i < |perms|
    ensures Lookup(perms, perms[i].resource).Some?
  {
    if i < |perms| - 1 {
      LookupPresent(perms[..|perms| - 1], i);
    }
  }

  /** Every default resource is present afterwards. */
  lemma BackfillFills(s: string, defaults: seq<Permission>, i: nat)
    requires Clean(defaults) && i < |defaults|
    ensures Lookup(Unmarshal(BackfillWith(s, defaults)), defaults[i].resource).Some?
  {
    BackfillReads(s, defaults);
    var existing := Unmarshal(s);
    LookupConcat(existing, Missing(existing, defaults), defaults[i].resource);
    MissingLookup(existing, defaults, defaults[i].resource);
    LookupPresent(defaults, i);
  }

  /** A second back-fill changes nothing. */
  lemma BackfillIdempotent(s: string, defaults: seq<Permission>)
    requires Clean(defaults)
    ensures BackfillWith(BackfillWith(s, defaults), defaults) == BackfillWith(s, defaults)
  {
    var s' := BackfillWith(s, defaults);
    forall i | 0 <= i < |defaults|
      ensures Lookup(Unmarshal(s'), defaults[i].resource).Some?
    {
      BackfillFills(s, defaults, i);
    }
    NothingMissing(Unmarshal(s'), defaults);
  }

  lemma WildcardConcat(a: seq<Permission>, b: seq<Permission>)
    ensures Wildcard(a + b) <==> Wildcard(a) || Wildcard(b)
  {
    var c := a + b;
    if Wildcard(a) {
      var i :| 0 <= i < |a| && a[i].resource == "*" && a[i].WildAll();
      assert c[i] == a[i];
    }
    if Wildcard(b) {
      var i :| 0 <= i < |b| && b[i].resource == "*" && b[i].WildAll();
      assert c[|a| + i] == b[i];
    }
  }

  lemma {:induction false} MissingMembers(existing: seq<Permission>, defaults: seq<Permission>)
    ensures forall p :: p in Missing(existing, defaults) ==> p in defaults
  {
    if defaults != [] {
      MissingMembers(existing, defaults[..|defaults| - 1]);
      assert defaults == defaults[..|defaults| - 1] + [defaults[|defaults| - 1]];
    }
  }

  lemma MissingNoWildcard(existing: seq<Permission>, defaults: seq<Permission>)
    requires !Wildcard(defaults)
    ensures !Wildcard(Missing(existing, defaults))
  {
    MissingMembers(existing, defaults);
    var m := Missing(existing, defaults);
    assert forall i :: 0 <= i < |m| ==> m[i] in defaults;
  }

  /**
   What is granted afterwards is what was granted before, plus the default grants of the
   resources that were not mentioned. So nothing is revoked, and no more than that is added.
   */
  lemma BackfillGrantsExactly(s: string, defaults: seq<Permission>, resource: string, action: int)
    requires Clean(defaults) && !Wildcard(defaults)
    ensures Grants(Unmarshal(BackfillWith(s, defaults)), resource, action) <==>
            || Grants(Unmarshal(s), resource, action)
            || (Lookup(Unmarshal(s), resource).None? && Grants(defaults, resource, action))
  {
    var existing := Unmarshal(s);
    var missing := Missing(existing, defaults);
    BackfillReads(s, defaults);
    WildcardConcat(existing, missing);
    MissingNoWildcard(existing, defaults);
    LookupConcat(existing, missing, resource);
    MissingLookup(existing, defaults, resource);
  }

  /******* The defaults *******/

  const DEFAULT_PERMISSIONS: seq<Permission> := [
    Permission("Audit", 0),
    Permission("Websocket", 393216),
    Permission("Dashboard", 4),
    Permission("JobRequest", 453),
    Permission("JobDefinition", 114750),
    Permission("JobResource", 49214),
    Permission("User", 14396),
    Permission("Organization", 564),
    Permission("OrgConfig", 12),
    Permission("UserConfig", 1073741824),
    Permission("Artifact", 1068),
    Permission("ErrorCode", 62),
    Permission("SystemConfig", 0),
    Permission("AntExecutor", 0),
    Permission("Container", 0),
    Permission("Health", 0),
    Permission("Profile", 0),
    Permission("Subscription", 0),
    Permission("TermsService", 4),
    Permission("PrivacyPolicies", 4),
    Permission("EmailVerification", 30),
    Permission("UserInvitation", 542),
    Permission("Report", 0),
    Permission("Logs", 22)]

  predicate Letters(s: string) { forall i :: 0 <= i < |s| ==> 'A' <= s[i] <= 'z' }

  lemma LettersClean(s: string)
    requires Letters(s) && s != ""
    ensures CleanName(s) && s != "*"
  {
    assert 'A' <= s[0] <= 'z';
  }

  lemma DefaultNames0()
    ensures forall i :: 0 <= i < 4 ==> CleanName(DEFAULT_PERMISSIONS[i].resource) && DEFAULT_PERMISSIONS[i].resource != "*"
  {
    LettersClean("Audit");
    LettersClean("Websocket");
    LettersClean("Dashboard");
    LettersClean("JobRequest");
  }

  lemma DefaultNames1()
    ensures forall i :: 4 <= i < 8 ==> CleanName(DEFAULT_PERMISSIONS[i].resource) && DEFAULT_PERMISSIONS[i].resource != "*"
  {
    LettersClean("JobDefinition");
    LettersClean("JobResource");
    LettersClean("User");
    LettersClean("Organization");
  }

  lemma DefaultNames2()
    ensures forall i :: 8 <= i < 12 ==> CleanName(DEFAULT_PERMISSIONS[i].resource) && DEFAULT_PERMISSIONS[i].resource != "*"
  {
    LettersClean("OrgConfig");
    LettersClean("UserConfig");
    LettersClean("Artifact");
    LettersClean("ErrorCode");
  }

  lemma DefaultNames3()
    ensures forall i :: 12 <= i < 16 ==> CleanName(DEFAULT_PERMISSIONS[i].resource) && DEFAULT_PERMISSIONS[i].resource != "*"
  {
    LettersClean("SystemConfig");
    LettersClean("AntExecutor");
    LettersClean("Container");
    LettersClean("Health");
  }

  lemma DefaultNames4()
    ensures forall i :: 16 <= i < 20 ==> CleanName(DEFAULT_PERMISSIONS[i].resource) && DEFAULT_PERMISSIONS[i].resource != "*"
  {
    LettersClean("Profile");
    LettersClean("Subscription");
    LettersClean("TermsService");
    LettersClean("PrivacyPolicies");
  }

  lemma DefaultNames5()
    ensures forall i :: 20 <= i < 24 ==> CleanName(DEFAULT_PERMISSIONS[i].resource) && DEFAULT_PERMISSIONS[i].resource != "*"
  {
    LettersClean("EmailVerification");
    LettersClean("UserInvitation");
    LettersClean("Report");
    LettersClean("Logs");
  }

  lemma DefaultsClean()
    ensures Clean(DEFAULT_PERMISSIONS) && !Wildcard(DEFAULT_PERMISSIONS)
  {
    DefaultNames0();
    DefaultNames1();
    DefaultNames2();
    DefaultNames3();
    DefaultNames4();
    DefaultNames5();
  }
}
