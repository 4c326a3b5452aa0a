/** Which policy versions a bundle holds: of each policy the approved version with the latest approval,
    and of those the ones that target the environment. */
module Bundles {
  import opened Utf8
  import Json
  import opened Registry

  predicate IsApproved(rows: map<Key, Row>, key: Key) {
    key in rows && rows[key].status == Approved && rows[key].approvedAt.Some?
  }

  function ApprovalOf(rows: map<Key, Row>, key: Key): int
    requires IsApproved(rows, key)
  {
    rows[key].approvedAt.value
  }

  predicate SamePolicy(a: Key, b: Key) {
    a.tenant == b.tenant && a.id == b.id
  }

  /** The version is approved, and no approved version of its policy was approved later. */
  ghost predicate IsLatest(rows: map<Key, Row>, key: Key) {
    && IsApproved(rows, key)
    && forall other :: other in rows && IsApproved(rows, other) && SamePolicy(other, key) ==>
      ApprovalOf(rows, other) <= ApprovalOf(rows, key)
  }

  /** _latest_approved_versions: the join of the approved rows with the latest approval of their policy. */
  ghost function LatestApproved(rows: map<Key, Row>, tenant: string): set<Key> {
    set key | key in rows && key.tenant == tenant && IsLatest(rows, key)
  }

  /** The versions in a bundle; envs gives the environments that a version's document targets. */
  ghost function InBundle(rows: map<Key, Row>, envs: map<Key, set<string>>, tenant: string, env: string): set<Key> {
    set key | key in LatestApproved(rows, tenant) && key in envs && env in envs[key]
  }

  /** What is in a bundle: the approved versions of the tenant that target the environment and that no
      approved version of the same policy was approved after. */
  lemma BundleHolds(rows: map<Key, Row>, envs: map<Key, set<string>>, tenant: string, env: string, key: Key)
    ensures key in InBundle(rows, envs, tenant, env) <==>
      (key in rows && key.tenant == tenant && key in envs && env in envs[key]
        && rows[key].status == Approved && rows[key].approvedAt.Some?
        && forall v ::
          (v in rows && rows[v].status == Approved && rows[v].approvedAt.Some? && v.tenant == tenant && v.id == key.id)
          ==> rows[v].approvedAt.value <= rows[key].approvedAt.value)
  {
  }

  /** No two approved versions of one policy were approved at the same instant. */
  ghost predicate DistinctInstants(rows: map<Key, Row>) {
    forall a, b ::
      a in rows && b in rows && IsApproved(rows, a) && IsApproved(rows, b) && SamePolicy(a, b) && a != b ==>
      ApprovalOf(rows, a) != ApprovalOf(rows, b)
  }

  /** The approved versions of one policy. */
  function ApprovedOf(rows: map<Key, Row>, key: Key): set<Key> {
    set k | k in rows && IsApproved(rows, k) && SamePolicy(k, key)
  }

  /** Every policy with an approved version has a latest one. */
  lemma {:induction false} SomeLatest(rows: map<Key, Row>, ks: set<Key>, key: Key) returns (best: Key)
    requires ks != {} && ks <= ApprovedOf(rows, key)
    ensures best in ks && forall k :: k in ks ==> ApprovalOf(rows, k) <= ApprovalOf(rows, best)
    decreases |ks|
  {
    var k :| k in ks;
    if ks == {k} {
      best := k;
    } else {
      var rest := ks - {k};
      assert ks == rest + {k};
      best := SomeLatest(rows, rest, key);
      if ApprovalOf(rows, k) > ApprovalOf(rows, best) {
        best := k;
      }
    }
  }

  /** With distinct approval instants each policy with an approved version is represented, and by one
      version. */
  lemma OneVersionPerPolicy(rows: map<Key, Row>, key: Key) returns (best: Key)
    requires IsApproved(rows, key) && DistinctInstants(rows)
    ensures SamePolicy(best, key) && best in LatestApproved(rows, key.tenant)
    ensures forall k :: k in LatestApproved(rows, key.tenant) && SamePolicy(k, key) ==> k == best
  {
    assert key in ApprovedOf(rows, key);
    best := SomeLatest(rows, ApprovedOf(rows, key), key);
    assert forall other :: other in rows && IsApproved(rows, other) && SamePolicy(other, best) ==>
      other in ApprovedOf(rows, key);
  }

  /** When the two latest were approved at one instant, both versions of the policy are in. */
  lemma TiesAreBothIn(rows: map<Key, Row>, a: Key, b: Key)
    requires a in rows && b in rows && IsLatest(rows, a) && IsApproved(rows, b) && SamePolicy(a, b)
    ensures b in LatestApproved(rows, a.tenant) <==> ApprovalOf(rows, a) == ApprovalOf(rows, b)
  {
  }

  /** Approving a version later than all others of its policy and revoking it again gives back the
      bundle there was, for every tenant and environment. */
  lemma RevokeRestores(rows: map<Key, Row>, envs: map<Key, set<string>>, key: Key, approver: string, now: int,
                       tenant: string, env: string)
    requires key in rows && rows[key].status == InReview
    requires forall k :: k in rows && IsApproved(rows, k) && SamePolicy(k, key) ==> ApprovalOf(rows, k) < now
    ensures
      var approval := rows[key].(status := Approved, approvedBy := Some(approver), approvedAt := Some(now));
      var approved := rows[key := approval];
      var revoked := approved[key := approved[key].(status := Revoked)];
      && LatestApproved(approved, key.tenant) ==
        (set k | k in LatestApproved(rows, key.tenant) && !SamePolicy(k, key)) + {key}
      && InBundle(revoked, envs, tenant, env) == InBundle(rows, envs, tenant, env)
  {
  }

  /** The environment is looked at after the selection: when the latest approved version of a policy
      does not target an environment, no version of the policy is in the bundle for it, although an
      older approved version may target it. */
  lemma NarrowerVersionHidesThePolicy(rows: map<Key, Row>, envs: map<Key, set<string>>, latest: Key, env: string)
    requires latest in rows && IsLatest(rows, latest) && DistinctInstants(rows)
    requires latest !in envs || env !in envs[latest]
    ensures forall k :: k in InBundle(rows, envs, latest.tenant, env) ==> !SamePolicy(k, latest)
  {
    var best := OneVersionPerPolicy(rows, latest);
    assert latest in LatestApproved(rows, latest.tenant);
  }

  // ---- detector references ----

  datatype Ref = Ref(id: string, version: string)

  /** Where the first '@' is; the length without one. */
  function AtSign(s: string): (n: nat)
    ensures n <= |s| && (n < |s| ==> s[n] == '@') && forall i :: 0 <= i < n ==> s[i] != '@'
  {
    if s == "" || s[0] == '@' then 0 else 1 + AtSign(s[1..])
  }

  function ParseRef(s: string): Option<Ref> {
    if AtSign(s) == |s| then None else Some(Ref(s[..AtSign(s)], s[AtSign(s) + 1..]))
  }

  predicate RefLess(a: Ref, b: Ref) {
    Less(a.id, b.id) || (a.id == b.id && Less(a.version, b.version))
  }

  predicate StrictlySorted(rs: seq<Ref>) {
    forall i, j :: 0 <= i < j < |rs| ==> RefLess(rs[i], rs[j])
  }

  lemma RefLessOrders(a: Ref, b: Ref, c: Ref)
    ensures RefLess(a, b) && RefLess(b, c) ==> RefLess(a, c)
    ensures RefLess(a, b) || RefLess(b, a) || a == b
  {
    Json.LessIsStrict(a.id, b.id, c.id);
    Json.LessIsStrict(a.version, b.version, c.version);
    Json.LessIsStrict(b.id, c.id, a.id);
  }

  function InsertRef(r: Ref, rs: seq<Ref>): seq<Ref> {
    if rs == [] || RefLess(r, rs[0]) then [r] + rs else [rs[0]] + InsertRef(r, rs[1..])
  }

  lemma {:induction false} InsertRefSorts(r: Ref, rs: seq<Ref>)
    requires StrictlySorted(rs) && r !in rs
    ensures StrictlySorted(InsertRef(r, rs))
    ensures forall x :: x in InsertRef(r, rs) <==> x == r || x in rs
  {
    if rs != [] {
      assert rs == [rs[0]] + rs[1..];
      RefLessOrders(r, rs[0], r);
      if RefLess(r, rs[0]) {
        forall i | 0 <= i < |rs| ensures RefLess(r, rs[i]) {
          RefLessOrders(r, rs[0], rs[i]);
        }
      } else {
        InsertRefSorts(r, rs[1..]);
        var t := InsertRef(r, rs[1..]);
        forall i | 0 <= i < |t| ensures RefLess(rs[0], t[i]) {
          assert t[i] in t;
        }
      }
    }
  }

  /** _detector_refs on the detector names of the guards, in order: each reference once, sorted. */
  method DetectorRefs(names: seq<string>) returns (refs: seq<Ref>)
    ensures forall i, j :: 0 <= i < j < |refs| ==>
      Less(refs[i].id, refs[j].id) || (refs[i].id == refs[j].id && Less(refs[i].version, refs[j].version))
    ensures forall r :: r in refs <==> exists i :: 0 <= i < |names| && ParseRef(names[i]) == Some(r)
  {
    refs := [];
    for i := 0 to |names|
      invariant StrictlySorted(refs)
      invariant forall r :: r in refs <==> exists k :: 0 <= k < i && ParseRef(names[k]) == Some(r)
    {
      var r := ParseRef(names[i]);
      if r.Some? && r.value !in refs {
        InsertRefSorts(r.value, refs);
        refs := InsertRef(r.value, refs);
      }
    }
  }

  /** Splitting a name at its first '@' and joining the parts again gives the name. */
  lemma RefOfName(s: string)
    ensures ParseRef(s).Some? <==> '@' in s
    ensures ParseRef(s).Some? ==>
      ParseRef(s).value.id + "@" + ParseRef(s).value.version == s && '@' !in ParseRef(s).value.id
  {
    if AtSign(s) < |s| {
      assert s == s[..AtSign(s)] + [s[AtSign(s)]] + s[AtSign(s) + 1..];
    }
  }
}
