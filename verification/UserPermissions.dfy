/** The loops of the permission codec, and the user record with its cached permission store. */
module UserPermissions {
  import opened Options
  import opened Strings
  import opened Decimals
  import opened Permissions

  lemma {:induction false} JoinSnoc(pieces: seq<string>, last: string, sep: char)
    requires pieces != []
    ensures Join(pieces + [last], sep) == Join(pieces, sep) + [sep] + last
  {
    assert (pieces + [last])[1..] == pieces[1..] + [last];
    if |pieces| == 1 {
      assert pieces[1..] + [last] == [last];
    } else {
      JoinSnoc(pieces[1..], last, sep);
    }
  }

  /** A separator goes before every entry but the first: the builder is empty only then. */
  method MarshalPermissions(perms: seq<Permission>) returns (s: string)
    ensures s == Marshal(perms)
  {
    s := "";
    for i := 0 to |perms|
      invariant s == Marshal(perms[..i])
    {
      assert perms[..i + 1][..i] == perms[..i];
      assert Texts(perms[..i + 1]) == Texts(perms[..i]) + [perms[i].Text()];
      if |s| > 0 {
        JoinSnoc(Texts(perms[..i]), perms[i].Text(), ';');
        s := s + [';'];
      } else if i > 0 {
        JoinNonEmpty(perms[..i]);
      }
      s := s + perms[i].Text();
    }
    assert perms[..|perms|] == perms;
  }

  method ReadLine(line: string) returns (perms: seq<Permission>)
    ensures perms == ParseLine(line)
  {
    perms := [];
    var parts := Split(line, '=');
    if |parts| == 2 {
      var action := Atoi(TrimSpace(parts[1]));
      if action.Some? {
        perms := [Permission(TrimSpace(parts[0]), action.value)];
      }
    }
  }

  method ReadLines(lines: seq<string>) returns (perms: seq<Permission>)
    ensures perms == ParseLines(lines)
  {
    perms := [];
    ghost var parts := ParseEach(lines);
    for i := 0 to |lines|
      invariant perms == Flatten(parts[..i])
    {
      var more := ReadLine(lines[i]);
      assert more == parts[i] && parts[..i + 1][..i] == parts[..i];
      perms := perms + more;
    }
    assert parts[..|lines|] == parts;
  }

  method UnmarshalPermissions(s: string) returns (perms: seq<Permission>)
    ensures perms == Unmarshal(s)
  {
    if s == "" {
      return [];
    }
    perms := ReadLines(Split(s, ';'));
  }

  /** The store that permission checks look things up in. */
  datatype Store = Store(lookup: map<string, Permission>, hasWildcard: bool) {
    function Entry(resource: string): Option<Permission> {
      if resource in lookup then Some(lookup[resource]) else None
    }

    predicate Has(resource: string, action: int) {
      hasWildcard || (resource in lookup && lookup[resource].Has(action))
    }
  }

  ghost predicate Represents(store: Store, perms: seq<Permission>) {
    && (store.hasWildcard <==> Wildcard(perms))
    && (forall r {:trigger store.Entry(r)} :: Lookup(perms, r) == store.Entry(r))
  }

  lemma StoreGrants(store: Store, perms: seq<Permission>, resource: string, action: int)
    requires Represents(store, perms)
    ensures store.Has(resource, action) <==> Grants(perms, resource, action)
  {
    assert Lookup(perms, resource) == store.Entry(resource);
  }

  /** One turn of the loop that fills the store. */
  function Noted(store: Store, p: Permission): Store {
    Store(store.lookup[p.resource := p], store.hasWildcard || (p.resource == "*" && p.WildAll()))
  }

  lemma RepresentsSnoc(store: Store, perms: seq<Permission>, p: Permission)
    requires Represents(store, perms)
    ensures Represents(Noted(store, p), perms + [p])
  {
    WildcardConcat(perms, [p]);
    assert Wildcard([p]) <==> p.resource == "*" && p.WildAll() by {
      assert [p][0] == p;
    }
    forall r
      ensures Lookup(perms + [p], r) == Noted(store, p).Entry(r)
    {
      assert (perms + [p])[..|perms|] == perms;
      assert Lookup(perms, r) == store.Entry(r);
    }
  }

  lemma RepresentsNothing()
    ensures Represents(Store(map[], false), [])
  {
  }

  method BuildStore(perms: seq<Permission>) returns (store: Store)
    ensures Represents(store, perms)
  {
    store := Store(map[], false);
    RepresentsNothing();
    ghost var seen: seq<Permission> := [];
    for i := 0 to |perms|
      invariant seen == perms[..i] && Represents(store, seen)
    {
      RepresentsSnoc(store, seen, perms[i]);
      store := Noted(store, perms[i]);
      seen := seen + [perms[i]];
    }
    assert seen == perms;
  }

  method NewPermissions(str: string) returns (store: Store)
    ensures Represents(store, Unmarshal(str))
  {
    var perms := UnmarshalPermissions(str);
    store := BuildStore(perms);
  }

  method AppendMissing(existing: seq<Permission>, defaults: seq<Permission>)
    returns (all: seq<Permission>, changed: bool)
    ensures all == existing + Missing(existing, defaults)
    ensures changed <==> Missing(existing, defaults) != []
  {
    var mentioned := set p | p in existing :: p.resource;
    all, changed := existing, false;
    for i := 0 to |defaults|
      invariant all == existing + Missing(existing, defaults[..i])
      invariant changed <==> Missing(existing, defaults[..i]) != []
    {
      MentionedIsLookup(existing, defaults[i].resource);
      assert defaults[..i + 1][..i] == defaults[..i];
      if defaults[i].resource !in mentioned {
        all := all + [defaults[i]];
        changed := true;
      }
    }
    assert defaults[..|defaults|] == defaults;
  }

  class User {
    var serializedPerms: string
    var permissions: Option<Store>

    /** A cached store is the one the text stands for. */
    ghost predicate Valid()
      reads this
    {
      permissions.Some? ==> Represents(permissions.value, Unmarshal(serializedPerms))
    }

    constructor (serializedPerms: string)
      ensures Valid() && this.serializedPerms == serializedPerms
    {
      this.serializedPerms, permissions := serializedPerms, None;
    }

    method GetPermissions() returns (store: Store)
      requires Valid()
      modifies this`permissions
      ensures Valid() && Represents(store, Unmarshal(serializedPerms))
    {
      if permissions.None? {
        var parsed := NewPermissions(serializedPerms);
        permissions := Some(parsed);
      }
      store := permissions.value;
    }

    method HasPermission(resource: string, action: int, isAdmin: bool) returns (ok: bool)
      requires Valid()
      modifies this`permissions
      ensures Valid() && (ok <==> isAdmin || Grants(Unmarshal(serializedPerms), resource, action))
    {
      if isAdmin {
        return true;
      }
      var store := GetPermissions();
      StoreGrants(store, Unmarshal(serializedPerms), resource, action);
      ok := store.Has(resource, action);
    }

    /** Appends the defaults whose resource is not mentioned, and drops the cache if there are any. */
    method BackfillDefaultPermissions()
      requires Valid()
      modifies this
      ensures Valid() && serializedPerms == BackfillWith(old(serializedPerms), DEFAULT_PERMISSIONS)
    {
      var existing := UnmarshalPermissions(serializedPerms);
      var all, changed := AppendMissing(existing, DEFAULT_PERMISSIONS);
      if changed {
        serializedPerms := MarshalPermissions(all);
        permissions := None;
      }
    }
  }

  lemma {:induction false} MentionedIsLookup(perms: seq<Permission>, resource: string)
    ensures Lookup(perms, resource).Some? <==> resource in set p | p in perms :: p.resource
  {
    if perms != [] {
      var init, last := perms[..|perms| - 1], perms[|perms| - 1];
      MentionedIsLookup(init, resource);
      assert perms == init + [last];
      if resource in set p | p in init :: p.resource {
        var p :| p in init && p.resource == resource;
        assert p in perms;
      }
      assert last in perms;
    }
  }
}
