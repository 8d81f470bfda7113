/**
 pkg/backend/common_impl.go, AuthenticateCert, and pkg/backend/entity_constants.go: each client certificate is
 bound to an entity of its own in an identity store keyed by entity name.
 */
module Identity {
  import opened Wrappers

  const FINGERPRINT_LENGTH := 64
  const FINGERPRINT_PREFIX_LENGTH := 16

  function FormatEntityName(prefix: string, cn: string, fingerprintPrefix: string): string {
    prefix + cn + "-" + fingerprintPrefix
  }

  function FormatEntityAlias(fingerprint: string, cn: string): string {
    "cert:SHA256:" + fingerprint + ":CN=" + cn
  }

  lemma {:induction false} SplitAt(a: string, b: string, c: string, d: string)
    requires a + b == c + d && |a| == |c|
    ensures a == c && b == d
  {
    assert a == (a + b)[..|a|] && b == (a + b)[|a|..];
    assert c == (c + d)[..|c|] && d == (c + d)[|c|..];
  }

  /** For one prefix the entity name determines the common name and the fingerprint prefix. */
  lemma {:induction false} EntityNameInjective(prefix: string, cn: string, f: string, cn': string, f': string)
    requires |f| == |f'| && FormatEntityName(prefix, cn, f) == FormatEntityName(prefix, cn', f')
    ensures cn == cn' && f == f'
  {
    var a, b := prefix + cn + "-", prefix + cn' + "-";
    assert |a| == |b|;
    SplitAt(a, f, b, f');
    assert a == prefix + (cn + "-") && b == prefix + (cn' + "-");
    SplitAt(prefix, cn + "-", prefix, cn' + "-");
    SplitAt(cn, "-", cn', "-");
  }

  /** Fingerprints have a fixed length, so the alias determines fingerprint and common name. */
  lemma {:induction false} EntityAliasInjective(f: string, cn: string, f': string, cn': string)
    requires |f| == |f'| && FormatEntityAlias(f, cn) == FormatEntityAlias(f', cn')
    ensures f == f' && cn == cn'
  {
    SplitAt("cert:SHA256:" + f + ":CN=", cn, "cert:SHA256:" + f' + ":CN=", cn');
    assert "cert:SHA256:" + f + ":CN=" == "cert:SHA256:" + (f + ":CN=");
    assert "cert:SHA256:" + f' + ":CN=" == "cert:SHA256:" + (f' + ":CN=");
    SplitAt("cert:SHA256:", f + ":CN=", "cert:SHA256:", f' + ":CN=");
    SplitAt(f, ":CN=", f', ":CN=");
  }

  // ---- The store ----

  /** An alias is bound to an entity, under the accessor of an auth mount. */
  datatype Alias = Alias(entity: nat, accessor: string)

  /** Entities and aliases by name, and which entity each token is bound to. Ids and tokens are handed out in order. */
  datatype Store = Store(entities: map<string, nat>, next: nat, aliases: map<string, Alias>, tokens: seq<nat>)

  const EMPTY := Store(map[], 0, map[], [])

  /** Creates the entity unless there is one of that name. */
  function Upsert(s: Store, name: string): Store {
    if name in s.entities then s else s.(entities := s.entities[name := s.next], next := s.next + 1)
  }

  datatype Mount = Mount(kind: string, accessor: string)

  /** How a write is answered: with the entity's id, with data but no id, or with no data. */
  datatype Shape = WithId | WithoutId | NoData

  /** What the store answers to one login; a failed entity write may or may not have taken effect. */
  datatype Answers = Answers(
    writeFails: bool, writeTookEffect: bool, shape: Shape, readFails: bool,
    mounts: Option<map<string, Mount>>, aliasFails: bool, tokenFails: bool)

  /** A login with the certificate's common name and SHA-256 fingerprint in hex. */
  datatype Login = Login(cn: string, fingerprint: string, answers: Answers)

  datatype Error = EntityFailed | NoEntityId | MountsFailed | NoAccessor | TokenFailed

  predicate IsFingerprint(f: string) {
    |f| == FINGERPRINT_LENGTH
  }

  function EffectiveCn(cn: string): string {
    if cn == "" then "unknown" else cn
  }

  function NameOf(prefix: string, l: Login): string
    requires IsFingerprint(l.fingerprint)
  {
    FormatEntityName(prefix, EffectiveCn(l.cn), l.fingerprint[..FINGERPRINT_PREFIX_LENGTH])
  }

  function TokenAccessor(mounts: map<string, Mount>): string {
    if "token/" in mounts && mounts["token/"].kind == "token" then mounts["token/"].accessor else ""
  }

  /** The store after a login, and the token it returned. */
  function AfterLogin(prefix: string, s: Store, l: Login): (Store, Result<nat, Error>)
    requires IsFingerprint(l.fingerprint)
  {
    var name, a := NameOf(prefix, l), l.answers;
    if a.writeFails then (if a.writeTookEffect then Upsert(s, name) else s, Err(EntityFailed))
    else
      var s1 := Upsert(s, name);
      if a.shape.WithoutId? then (s1, Err(NoEntityId))
      else if a.shape.NoData? && a.readFails then (s1, Err(EntityFailed))
      else if a.mounts.None? then (s1, Err(MountsFailed))
      else if TokenAccessor(a.mounts.value) == "" then (s1, Err(NoAccessor))
      else
        var id := s1.entities[name];
        var alias := FormatEntityAlias(l.fingerprint, EffectiveCn(l.cn));
        var bound := Alias(id, TokenAccessor(a.mounts.value));
        var s2 := if a.aliasFails then s1 else s1.(aliases := s1.aliases[alias := bound]);
        if a.tokenFails then (s2, Err(TokenFailed))
        else (s2.(tokens := s2.tokens + [id]), Ok(|s2.tokens|))
  }

  class IdentityBackend {
    var store: Store

    constructor ()
      ensures store == EMPTY
    {
      store := EMPTY;
    }

    /** The entity's id, whichever way the store answers the write. */
    method CreateOrUpdateEntity(name: string, a: Answers) returns (r: Result<nat, Error>)
      modifies this
      ensures store == if a.writeFails && !a.writeTookEffect then old(store) else Upsert(old(store), name)
      ensures a.writeFails ==> r == Err(EntityFailed)
      ensures !a.writeFails && a.shape.WithoutId? ==> r == Err(NoEntityId)
      ensures !a.writeFails && a.shape.NoData? && a.readFails ==> r == Err(EntityFailed)
      ensures !a.writeFails && (a.shape.WithId? || (a.shape.NoData? && !a.readFails)) ==> r == Ok(store.entities[name])
    {
      if a.writeFails {
        if a.writeTookEffect {
          store := Upsert(store, name);
        }
        return Err(EntityFailed);
      }
      store := Upsert(store, name);
      if !a.shape.NoData? {
        if a.shape.WithoutId? {
          return Err(NoEntityId);
        }
        return Ok(store.entities[name]);
      }
      // no data: the entity existed, it is read back
      if a.readFails {
        return Err(EntityFailed);
      }
      return Ok(store.entities[name]);
    }

    method FindTokenAccessor(mounts: map<string, Mount>) returns (accessor: string)
      ensures "token/" in mounts && mounts["token/"].kind == "token" ==> accessor == mounts["token/"].accessor
      ensures !("token/" in mounts && mounts["token/"].kind == "token") ==> accessor == ""
      ensures accessor == TokenAccessor(mounts)
    {
      accessor := "";
      var todo := mounts.Keys;
      while todo != {}
        invariant todo <= mounts.Keys && accessor == ""
        invariant forall path | path in mounts.Keys - todo :: !(mounts[path].kind == "token" && path == "token/")
        decreases todo
      {
        var path :| path in todo;
        if mounts[path].kind == "token" && path == "token/" {
          accessor := mounts[path].accessor;
          break;
        }
        todo := todo - {path};
      }
    }

    method AuthenticateCert(prefix: string, l: Login) returns (r: Result<nat, Error>)
      requires IsFingerprint(l.fingerprint)
      modifies this
      ensures (store, r) == AfterLogin(prefix, old(store), l)
    {
      var cn := l.cn;
      if cn == "" {
        cn := "unknown";
      }
      var fingerprintPrefix := l.fingerprint[..FINGERPRINT_PREFIX_LENGTH];
      var entityName := FormatEntityName(prefix, cn, fingerprintPrefix);
      var aliasName := FormatEntityAlias(l.fingerprint, cn);
      var entityId := CreateOrUpdateEntity(entityName, l.answers);
      if entityId.Err? {
        return Err(entityId.error);
      }
      if l.answers.mounts.None? {
        return Err(MountsFailed);
      }
      var accessor := FindTokenAccessor(l.answers.mounts.value);
      if accessor == "" {
        return Err(NoAccessor);
      }
      if !l.answers.aliasFails {
        store := store.(aliases := store.aliases[aliasName := Alias(entityId.value, accessor)]);
      }
      // a failed alias is only logged: the token is made all the same
      if l.answers.tokenFails {
        return Err(TokenFailed);
      }
      r := Ok(|store.tokens|);
      store := store.(tokens := store.tokens + [entityId.value]);
    }
  }

  // ---- One login in full ----

  /** The login gets as far as the alias: the store has given an id, and a token mount with an accessor. */
  predicate ReachesAlias(l: Login) {
    var a := l.answers;
    && !a.writeFails && (a.shape == WithId || (a.shape == NoData && !a.readFails))
    && a.mounts.Some? && "token/" in a.mounts.value
    && a.mounts.value["token/"].kind == "token" && a.mounts.value["token/"].accessor != ""
  }

  /** Names, alias, accessor and token of a login, and what each failure leaves. */
  lemma {:induction false} LoginInFull(prefix: string, s: Store, l: Login)
    requires IsFingerprint(l.fingerprint)
    ensures var (t, r) := AfterLogin(prefix, s, l);
            var a := l.answers;
            var cn := if l.cn == "" then "unknown" else l.cn;
            var name := prefix + cn + "-" + l.fingerprint[..16];
            var alias := "cert:SHA256:" + l.fingerprint + ":CN=" + cn;
            && (name in t.entities <==> name in s.entities || !a.writeFails || a.writeTookEffect)
            && (name !in s.entities && name in t.entities ==> t.entities == s.entities[name := s.next])
            && (name in s.entities || name !in t.entities ==> t.entities == s.entities)
            && (ReachesAlias(l) && !a.aliasFails ==>
                  t.aliases == s.aliases[alias := Alias(t.entities[name], a.mounts.value["token/"].accessor)])
            && (!ReachesAlias(l) || a.aliasFails ==> t.aliases == s.aliases)
            && (ReachesAlias(l) && !a.tokenFails ==> r == Ok(|s.tokens|) && t.tokens == s.tokens + [t.entities[name]])
            && (!ReachesAlias(l) || a.tokenFails ==> r.Err? && t.tokens == s.tokens)
  {
  }

  lemma {:induction false} LoginErrors(prefix: string, s: Store, l: Login)
    requires IsFingerprint(l.fingerprint)
    ensures var (a, r) := (l.answers, AfterLogin(prefix, s, l).1);
            && (r == Err(EntityFailed) <==> a.writeFails || (a.shape == NoData && a.readFails))
            && (r == Err(NoEntityId) <==> !a.writeFails && a.shape == WithoutId)
            && (r == Err(TokenFailed) <==> ReachesAlias(l) && a.tokenFails)
            && (r == Err(MountsFailed) ==> a.mounts == None)
            && (r == Err(NoAccessor) ==> a.mounts.Some? && !ReachesAlias(l))
  {
  }

  // ---- Runs ----

  function Run(prefix: string, s: Store, ls: seq<Login>): (Store, seq<Result<nat, Error>>)
    requires forall l | l in ls :: IsFingerprint(l.fingerprint)
    decreases |ls|
  {
    if ls == [] then (s, [])
    else
      assert ls[0] in ls && forall l | l in ls[1..] :: l in ls;
      var (s1, r) := AfterLogin(prefix, s, ls[0]);
      var (s2, rs) := Run(prefix, s1, ls[1..]);
      (s2, [r] + rs)
  }

  /** Ids are handed out once. */
  ghost predicate Inv(s: Store) {
    && (forall n | n in s.entities :: s.entities[n] < s.next)
    && (forall n, n' | n in s.entities && n' in s.entities && s.entities[n] == s.entities[n'] :: n == n')
  }

  /** Nothing handed out is ever changed. */
  ghost predicate Grows(s: Store, t: Store) {
    && (forall n | n in s.entities :: n in t.entities && t.entities[n] == s.entities[n])
    && s.tokens <= t.tokens
  }

  /** The token of a successful login is bound to the entity of that login's name. */
  ghost predicate Bound(prefix: string, s: Store, l: Login, r: Result<nat, Error>)
    requires IsFingerprint(l.fingerprint)
  {
    r.Ok? ==>
      r.value < |s.tokens| && NameOf(prefix, l) in s.entities && s.tokens[r.value] == s.entities[NameOf(prefix, l)]
  }

  lemma {:induction false} UpsertBinds(s: Store, name: string)
    requires Inv(s)
    ensures Inv(Upsert(s, name)) && Grows(s, Upsert(s, name)) && name in Upsert(s, name).entities
  {
  }

  lemma {:induction false} LoginBinds(prefix: string, s: Store, l: Login)
    requires Inv(s) && IsFingerprint(l.fingerprint)
    ensures var (t, r) := AfterLogin(prefix, s, l);
            Inv(t) && Grows(s, t) && Bound(prefix, t, l, r) && (r.Ok? ==> r.value == |s.tokens| < |t.tokens|)
  {
    UpsertBinds(s, NameOf(prefix, l));
  }

  /** Every login of a run got a token of its own, bound to its own entity. */
  ghost predicate AllBound(prefix: string, first: nat, t: Store, ls: seq<Login>, rs: seq<Result<nat, Error>>) {
    && |rs| == |ls|
    && (forall i | 0 <= i < |ls| :: IsFingerprint(ls[i].fingerprint) && Bound(prefix, t, ls[i], rs[i]))
    && (forall i | 0 <= i < |ls| && rs[i].Ok? :: first <= rs[i].value)
    && (forall i, j | 0 <= i < j < |ls| && rs[i].Ok? && rs[j].Ok? :: rs[i].value < rs[j].value)
  }

  lemma {:induction false} BoundLater(prefix: string, s: Store, t: Store, l: Login, r: Result<nat, Error>)
    requires IsFingerprint(l.fingerprint) && Bound(prefix, s, l, r) && Grows(s, t)
    ensures Bound(prefix, t, l, r)
  {
  }

  lemma {:induction false} AllBoundCons(prefix: string, first: nat, next: nat, t: Store, l: Login,
            r: Result<nat, Error>,
                                        ls: seq<Login>, rs: seq<Result<nat, Error>>)
    requires IsFingerprint(l.fingerprint) && Bound(prefix, t, l, r) && AllBound(prefix, next, t, ls, rs)
    requires first <= next && (r.Ok? ==> first <= r.value < next)
    ensures AllBound(prefix, first, t, [l] + ls, [r] + rs)
  {
    forall i | 0 < i < |[l] + ls|
      ensures ([l] + ls)[i] == ls[i - 1] && ([r] + rs)[i] == rs[i - 1]
    {
    }
  }

  lemma {:induction false} RunBinds(prefix: string, s: Store, ls: seq<Login>)
    requires Inv(s) && forall l | l in ls :: IsFingerprint(l.fingerprint)
    ensures var (t, rs) := Run(prefix, s, ls);
            Inv(t) && Grows(s, t) && AllBound(prefix, |s.tokens|, t, ls, rs)
    decreases |ls|
  {
    if ls != [] {
      var l, rest := ls[0], ls[1..];
      assert ls == [l] + rest;
      assert l in ls && forall x | x in rest :: x in ls;
      LoginBinds(prefix, s, l);
      var (s1, r) := AfterLogin(prefix, s, l);
      RunBinds(prefix, s1, rest);
      var (t, rs) := Run(prefix, s1, rest);
      BoundLater(prefix, s1, t, l, r);
      AllBoundCons(prefix, |s.tokens|, |s1.tokens|, t, l, r, rest, rs);
    }
  }

  /**
   Over any run of certificate logins, every token is the caller's own and is bound to the entity named after
   the caller; two logins share an entity exactly when their effective common names and the first 16 characters
   of their fingerprints are equal.
   */
  lemma {:induction false} SharedEntityIff(prefix: string, ls: seq<Login>, i: nat, j: nat)
    requires forall l | l in ls :: IsFingerprint(l.fingerprint)
    requires i < |ls| && j < |ls|
    ensures var (s, rs) := Run(prefix, EMPTY, ls);
            && |rs| == |ls|
            && (rs[i].Ok? && rs[j].Ok? ==>
                  && rs[i].value < |s.tokens| && rs[j].value < |s.tokens|
                  && (s.tokens[rs[i].value] == s.tokens[rs[j].value] <==>
                        EffectiveCn(ls[i].cn) == EffectiveCn(ls[j].cn) && ls[i].fingerprint[..16]
                            == ls[j].fingerprint[..16])
                  && (rs[i].value == rs[j].value <==> i == j))
  {
    RunBinds(prefix, EMPTY, ls);
    var (s, rs) := Run(prefix, EMPTY, ls);
    assert ls[i] in ls && ls[j] in ls;
    assert Bound(prefix, s, ls[i], rs[i]) && Bound(prefix, s, ls[j], rs[j]);
    if NameOf(prefix, ls[i]) == NameOf(prefix, ls[j]) {
      EntityNameInjective(prefix, EffectiveCn(ls[i].cn), ls[i].fingerprint[..16],
                          EffectiveCn(ls[j].cn), ls[j].fingerprint[..16]);
    }
  }

  /** Logging in again leaves the entities as they are, whatever the answers and whatever came in between. */
  lemma {:induction false} RepeatedLoginAddsNothing(prefix: string, s: Store, l: Login, between: seq<Login>,
            again: Login)
    requires Inv(s) && IsFingerprint(l.fingerprint) && forall x | x in between :: IsFingerprint(x.fingerprint)
    requires again.cn == l.cn && again.fingerprint == l.fingerprint
    requires AfterLogin(prefix, s, l).1.Ok?
    ensures var t := Run(prefix, AfterLogin(prefix, s, l).0, between).0;
            AfterLogin(prefix, t, again).0.entities == t.entities
  {
    LoginBinds(prefix, s, l);
    RunBinds(prefix, AfterLogin(prefix, s, l).0, between);
  }

  /** Every alias of a certificate is bound to the entity of that certificate. */
  ghost predicate AliasesAgree(prefix: string, s: Store) {
    forall f: string, cn: string | IsFingerprint(f) && FormatEntityAlias(f, cn) in s.aliases ::
      AliasAgrees(prefix, s, f, cn)
  }

  predicate AliasAgrees(prefix: string, s: Store, f: string, cn: string)
    requires IsFingerprint(f)
  {
    var name := FormatEntityName(prefix, cn, f[..16]);
    && FormatEntityAlias(f, cn) in s.aliases && name in s.entities
    && s.aliases[FormatEntityAlias(f, cn)].entity == s.entities[name]
  }

  lemma {:induction false} LoginAliases(prefix: string, s: Store, l: Login)
    requires Inv(s) && AliasesAgree(prefix, s) && IsFingerprint(l.fingerprint)
    ensures AliasesAgree(prefix, AfterLogin(prefix, s, l).0)
  {
    var t := AfterLogin(prefix, s, l).0;
    LoginBinds(prefix, s, l);
    LoginInFull(prefix, s, l);
    forall f: string, cn: string | IsFingerprint(f) && FormatEntityAlias(f, cn) in t.aliases
      ensures AliasAgrees(prefix, t, f, cn)
    {
      if FormatEntityAlias(f, cn) == FormatEntityAlias(l.fingerprint, EffectiveCn(l.cn)) {
        EntityAliasInjective(f, cn, l.fingerprint, EffectiveCn(l.cn));
      }
      assert FormatEntityAlias(f, cn) in s.aliases ==> AliasAgrees(prefix, s, f, cn);
    }
  }

  lemma {:induction false} RunAliases(prefix: string, s: Store, ls: seq<Login>)
    requires Inv(s) && AliasesAgree(prefix, s) && forall l | l in ls :: IsFingerprint(l.fingerprint)
    ensures AliasesAgree(prefix, Run(prefix, s, ls).0)
    decreases |ls|
  {
    if ls != [] {
      assert ls[0] in ls && forall l | l in ls[1..] :: l in ls;
      LoginBinds(prefix, s, ls[0]);
      LoginAliases(prefix, s, ls[0]);
      RunAliases(prefix, AfterLogin(prefix, s, ls[0]).0, ls[1..]);
    }
  }

  /** After any run, the alias of a fingerprint and a common name leads to the entity of that certificate. */
  lemma {:induction false} AliasLeadsToEntity(prefix: string, ls: seq<Login>, f: string, cn: string)
    requires (forall l | l in ls :: IsFingerprint(l.fingerprint)) && |f| == 64
    requires "cert:SHA256:" + f + ":CN=" + cn in Run(prefix, EMPTY, ls).0.aliases
    ensures var s := Run(prefix, EMPTY, ls).0;
            && prefix + cn + "-" + f[..16] in s.entities
            && s.aliases["cert:SHA256:" + f + ":CN=" + cn].entity == s.entities[prefix + cn + "-" + f[..16]]
  {
    RunAliases(prefix, EMPTY, ls);
    assert FormatEntityAlias(f, cn) in Run(prefix, EMPTY, ls).0.aliases;
    assert AliasAgrees(prefix, Run(prefix, EMPTY, ls).0, f, cn);
  }
}
