/** The policy registry: versions and their lifecycle, separation of duty, the one auto-approval rule,
    and the audit trail. Each method is one committed request. */
module Registry {
  import opened Utf8

  datatype Status = Draft | InReview | Approved | Deprecated | Revoked

  datatype Origin = Manual | Feed | Synthesizer | Autotuner

  datatype Role = Viewer | Author | Reviewer | Approver | Admin | Service

  datatype Principal = Principal(subject: string, role: Role)

  /** Tenant, policy id, version. */
  datatype Key = Key(tenant: string, id: string, version: string)

  datatype Row = Row(status: Status, origin: Origin, changeClass: string, createdBy: string,
    approvedBy: Option<string>, approvedAt: Option<int>, rule: Option<string>)

  datatype Action = Created | Submitted | WasApproved | Rejected | WasRevoked

  datatype Audit = Audit(key: Key, action: Action, actor: string)

  datatype Response = Done | Forbidden | NotFound | Conflict | Invalid

  /** The part of a submitted document that the registry looks at; "" stands for a missing name. */
  datatype Document = Document(id: string, version: string, tenant: Option<string>, lintErrors: bool)

  const AA1 := "AA-1: origin=feed AND change_class=monotonic_add"
  const AA1_ACTOR := "system:AA-1"

  function AutoRule(origin: Origin, changeClass: string): Option<string> {
    if origin == Feed && changeClass == "monotonic_add" then Some(AA1) else None
  }

  /** require_role: an admin always passes. */
  predicate Allowed(p: Principal, roles: set<Role>) {
    p.role in roles || p.role == Admin
  }

  // ---- the audit trail ----

  /** The status an audited step leaves. */
  function After(a: Action): Option<Status> {
    match a
    case Created => Some(Draft)
    case Submitted => Some(InReview)
    case WasApproved => Some(Approved)
    case Rejected => Some(Draft)
    case WasRevoked => Some(Revoked)
  }

  /** The status of a version according to its audit rows. */
  function Replay(audit: seq<Audit>, key: Key): Option<Status> {
    if audit == [] then None
    else
      var before, a := Replay(audit[..|audit| - 1], key), audit[|audit| - 1];
      if a.key == key then After(a.action) else before
  }

  /** The actor of the last approval of a version, if any. */
  function LastApprover(audit: seq<Audit>, key: Key): Option<string> {
    if audit == [] then None
    else ApproverAfter(LastApprover(audit[..|audit| - 1], key), audit[|audit| - 1], key)
  }

  function ApproverAfter(before: Option<string>, a: Audit, key: Key): Option<string> {
    if a.key == key && a.action == WasApproved then Some(a.actor) else before
  }

  lemma ReplaySnoc(audit: seq<Audit>, a: Audit, key: Key)
    ensures Replay(audit + [a], key) == if a.key == key then After(a.action) else Replay(audit, key)
    ensures LastApprover(audit + [a], key) == ApproverAfter(LastApprover(audit, key), a, key)
  {
    assert (audit + [a])[..|audit|] == audit;
  }

  /** Who made an audited step, and from where. The role is not part of the stored row. */
  datatype Stamp = Stamp(role: Role, before: Option<Status>)

  /** How an approval may come about. */
  predicate Legitimate(a: Audit, s: Stamp, row: Row) {
    || (s.before == Some(InReview) && s.role == Admin)
    || (s.before == Some(InReview) && s.role == Approver && a.actor != row.createdBy)
    || (s.before == Some(Draft) && a.actor == AA1_ACTOR && AutoRule(row.origin, row.changeClass) == Some(AA1))
  }

  /** What one audit row says is borne out by the table and by the rows before it. */
  ghost predicate EntryOk(rows: map<Key, Row>, audit: seq<Audit>, stamps: seq<Stamp>, i: nat)
    requires i < |audit| && i < |stamps|
  {
    var a, s := audit[i], stamps[i];
    && a.key in rows
    && s.before == Replay(audit[..i], a.key)
    && (a.action == WasApproved ==> Legitimate(a, s, rows[a.key]))
    && (a.action == WasRevoked ==> s.before == Some(Approved) || s.before == Some(Deprecated))
    && (a.action != Created ==> s.before != Some(Revoked) && s.before != None)
    && (a.action == Created ==> s.before == None)
  }

  ghost predicate Consistent(rows: map<Key, Row>, audit: seq<Audit>, stamps: seq<Stamp>) {
    && |audit| == |stamps|
    && (forall i {:trigger EntryOk(rows, audit, stamps, i)} :: 0 <= i < |audit| ==> EntryOk(rows, audit, stamps, i))
    && (forall key :: Replay(audit, key) == if key in rows then Some(rows[key].status) else None)
    && (forall key :: LastApprover(audit, key) == if key in rows then rows[key].approvedBy else None)
    && (forall key :: key in rows && rows[key].status == Approved ==> rows[key].approvedAt.Some?)
  }

  /** What is recorded when a version is created. */
  predicate SameBirth(r: Row, s: Row) {
    r.origin == s.origin && r.createdBy == s.createdBy && r.changeClass == s.changeClass
  }

  /** A step: one row put in place and one audit row appended. */
  lemma StepStaysConsistent(rows: map<Key, Row>, audit: seq<Audit>, stamps: seq<Stamp>, key: Key,
      row: Row, a: Audit, s: Stamp)
    requires Consistent(rows, audit, stamps)
    requires a.key == key && s.before == Replay(audit, key) && After(a.action) == Some(row.status)
    requires row.approvedBy == ApproverAfter(LastApprover(audit, key), a, key)
    requires row.status == Approved ==> row.approvedAt.Some?
    requires key in rows ==> SameBirth(row, rows[key])
    requires EntryOk(rows[key := row], audit + [a], stamps + [s], |audit|)
    ensures Consistent(rows[key := row], audit + [a], stamps + [s])
  {
    var rows', audit', stamps' := rows[key := row], audit + [a], stamps + [s];
    forall i | 0 <= i < |audit'| ensures EntryOk(rows', audit', stamps', i) {
      if i < |audit| {
        assert EntryOk(rows, audit, stamps, i);
        assert audit'[..i] == audit[..i];
      }
    }
    forall k
      ensures Replay(audit', k) == if k in rows' then Some(rows'[k].status) else None
      ensures LastApprover(audit', k) == if k in rows' then rows'[k].approvedBy else None
    {
      ReplaySnoc(audit, a, k);
    }
  }

  /** What may change from one state of the table to a later one: versions never disappear, what was
      recorded at creation stays, and a revoked version never changes again. */
  ghost predicate Evolves(was: map<Key, Row>, now: map<Key, Row>) {
    forall key :: key in was ==>
      && key in now && SameBirth(now[key], was[key])
      && (was[key].status == Revoked ==> now[key] == was[key])
  }

  /** The last audited step of an approved version is an approval by the approver its row records, and
      was legitimate: from in_review by an approver other than the author or by an admin, or by AA-1. */
  lemma ApprovedIsJustified(rows: map<Key, Row>, audit: seq<Audit>, stamps: seq<Stamp>, key: Key) returns (i: nat)
    requires Consistent(rows, audit, stamps) && key in rows && rows[key].status == Approved
    ensures i < |audit| && audit[i].key == key && audit[i].action == WasApproved
    ensures rows[key].approvedBy == Some(audit[i].actor)
    ensures Legitimate(audit[i], stamps[i], rows[key]) && stamps[i].before == Replay(audit[..i], key)
    ensures forall j :: i < j < |audit| ==> audit[j].key != key
  {
    i := LastEntry(audit, key);
    assert EntryOk(rows, audit, stamps, i);
  }

  /** The entry that decided the status of a version. */
  lemma {:induction false} LastEntry(audit: seq<Audit>, key: Key) returns (i: nat)
    requires Replay(audit, key).Some?
    ensures i < |audit| && audit[i].key == key
    ensures Replay(audit, key) == After(audit[i].action)
    ensures LastApprover(audit, key) == ApproverAfter(LastApprover(audit[..i], key), audit[i], key)
    ensures forall j :: i < j < |audit| ==> audit[j].key != key
  {
    var n := |audit| - 1;
    if audit[n].key == key {
      i := n;
    } else {
      i := LastEntry(audit[..n], key);
      assert audit[..n][..i] == audit[..i];
    }
  }

  /** Nothing follows a revocation in the trail of a version, and a version is created once. */
  lemma RevokedIsTerminal(rows: map<Key, Row>, audit: seq<Audit>, stamps: seq<Stamp>, i: nat, j: nat)
    requires Consistent(rows, audit, stamps) && i < j < |audit| && audit[i].key == audit[j].key
    ensures audit[i].action != WasRevoked && audit[j].action != Created
  {
    var key := audit[i].key;
    TrailGoesOn(rows, audit, stamps, i, j);
    assert EntryOk(rows, audit, stamps, j);
  }

  lemma {:induction false} TrailGoesOn(rows: map<Key, Row>, audit: seq<Audit>, stamps: seq<Stamp>, i: nat, j: nat)
    requires Consistent(rows, audit, stamps) && i < j <= |audit|
    ensures Replay(audit[..j], audit[i].key) != None
    ensures audit[i].action == WasRevoked ==> Replay(audit[..j], audit[i].key) == Some(Revoked)
    decreases j
  {
    var key := audit[i].key;
    assert audit[..j] == audit[..j - 1] + [audit[j - 1]];
    ReplaySnoc(audit[..j - 1], audit[j - 1], key);
    if i < j - 1 {
      TrailGoesOn(rows, audit, stamps, i, j - 1);
      assert EntryOk(rows, audit, stamps, j - 1);
    }
  }

  /** The document gives the policy and the version of the key, and names no other tenant. */
  predicate NamedBy(doc: Document, key: Key) {
    && doc.id == key.id != "" && doc.version == key.version != ""
    && (doc.tenant == None || doc.tenant == Some(key.tenant)) && !doc.lintErrors
  }

  /** No version came from a document that names another tenant or policy, or that the linter refused. */
  ghost predicate Sourced(rows: map<Key, Row>, sources: map<Key, Document>) {
    forall key :: key in rows ==> key in sources && NamedBy(sources[key], key)
  }

  lemma TwoCommits(rows: map<Key, Row>, audit: seq<Audit>, key: Key, draft: Row, row: Row, a: Audit, b: Audit)
    ensures rows[key := draft][key := row] == rows[key := row]
    ensures (audit + [a]) + [b] == audit + [a, b]
    ensures Evolves(rows, rows[key := draft]) && Evolves(rows[key := draft], rows[key := row]) ==>
      Evolves(rows, rows[key := row])
  {
  }

  class PolicyRegistry {
    var tenants: set<string>
    var rows: map<Key, Row>
    var audit: seq<Audit>
    ghost var stamps: seq<Stamp>
    ghost var sources: map<Key, Document>   // the document each version was created from

    ghost predicate Valid()
      reads this
    {
      Consistent(rows, audit, stamps) && Sourced(rows, sources)
    }

    constructor ()
      ensures Valid() && rows == map[] && audit == [] && tenants == {}
    {
      tenants, rows, audit, stamps, sources := {}, map[], [], [], map[];
    }

    ghost predicate Unchanged(was: map<Key, Row>, trail: seq<Audit>)
      reads this
    {
      rows == was && audit == trail
    }

    /** One row was put in place and these audit rows were added. */
    ghost predicate Became(was: map<Key, Row>, trail: seq<Audit>, key: Key, row: Row, added: seq<Audit>)
      reads this
    {
      rows == was[key := row] && audit == trail + added
    }

    /** Commits one row and one audit row. */
    method Commit(key: Key, row: Row, action: Action, actor: string, ghost role: Role, ghost doc: Document)
      requires Valid() && NamedBy(doc, key)
      requires After(action) == Some(row.status)
      requires row.approvedBy ==
        if action == WasApproved then Some(actor) else if key in rows then rows[key].approvedBy else None
      requires row.status == Approved ==> row.approvedAt.Some?
      requires key in rows ==> SameBirth(row, rows[key]) && rows[key].status != Revoked && action != Created
      requires key !in rows ==> action == Created
      requires action == WasApproved ==> Legitimate(Audit(key, action, actor), Stamp(role, Replay(audit, key)), row)
      requires action == WasRevoked ==> Replay(audit, key) in {Some(Approved), Some(Deprecated)}
      modifies this`rows, this`audit, this`stamps, this`sources
      ensures Valid() && Evolves(old(rows), rows)
      ensures rows == old(rows)[key := row] && audit == old(audit) + [Audit(key, action, actor)]
      ensures sources == old(sources)[key := doc]
    {
      ghost var s := Stamp(role, Replay(audit, key));
      var a := Audit(key, action, actor);
      assert (audit + [a])[..|audit|] == audit;
      StepStaysConsistent(rows, audit, stamps, key, row, a, s);
      rows, audit, stamps, sources := rows[key := row], audit + [a], stamps + [s], sources[key := doc];
    }

    /** _insert_policy for a draft. */
    function Refusal(doc: Document, tenant: string): Response
      reads this
    {
      if tenant !in tenants then NotFound
      else if doc.id == "" || doc.version == "" then Invalid
      else if doc.tenant.Some? && doc.tenant.value != tenant then Invalid
      else if Key(tenant, doc.id, doc.version) in rows then Conflict
      else Done
    }

    /** _insert_policy: a new draft, or why not. */
    method InsertDraft(doc: Document, tenant: string, origin: Origin, changeClass: string, p: Principal)
      returns (r: Response)
      requires Valid() && !doc.lintErrors
      modifies this`rows, this`audit, this`stamps, this`sources
      ensures Valid() && Evolves(old(rows), rows)
      ensures r == old(Refusal(doc, tenant)) && (r == NotFound <==> tenant !in tenants)
      ensures r == Invalid <==>
        tenant in tenants && (doc.id == "" || doc.version == "" || doc.tenant !in {None, Some(tenant)})
      ensures r in {NotFound, Invalid, Conflict, Done}
      ensures r != Done ==> Unchanged(old(rows), old(audit))
      ensures r == Done ==> tenant in tenants && doc.tenant in {None, Some(tenant)} && doc.id != "" && doc.version != ""
      ensures r == Done ==> Key(tenant, doc.id, doc.version) !in old(rows)
      ensures r == Done ==> sources == old(sources)[Key(tenant, doc.id, doc.version) := doc]
      ensures r == Done ==> var key := Key(tenant, doc.id, doc.version);
        Became(old(rows), old(audit), key, Row(Draft, origin, changeClass, p.subject, None, None, None),
          [Audit(key, Created, p.subject)])
    {
      r := Refusal(doc, tenant);
      if r == Done {
        Commit(Key(tenant, doc.id, doc.version), Row(Draft, origin, changeClass, p.subject, None, None, None),
          Created, p.subject, p.role, doc);
      }
    }

    method CreatePolicy(p: Principal, doc: Document, tenant: string) returns (r: Response)
      requires Valid()
      modifies this`rows, this`audit, this`stamps, this`sources
      ensures Valid() && Evolves(old(rows), rows)
      ensures r == if p.role !in {Author, Admin} then Forbidden else if doc.lintErrors then Invalid
        else old(Refusal(doc, tenant))
      ensures r != Done ==> Unchanged(old(rows), old(audit))
      ensures r == Done ==> tenant in tenants && doc.tenant in {None, Some(tenant)} && doc.id != "" && doc.version != ""
      ensures r == Done ==> Key(tenant, doc.id, doc.version) !in old(rows)
      ensures r == Done ==> sources == old(sources)[Key(tenant, doc.id, doc.version) := doc]
      ensures r == Done ==> var key := Key(tenant, doc.id, doc.version);
        Became(old(rows), old(audit), key, Row(Draft, Manual, "", p.subject, None, None, None),
          [Audit(key, Created, p.subject)])
    {
      if !Allowed(p, {Author, Admin}) {
        return Forbidden;
      }
      if doc.lintErrors {
        return Invalid;
      }
      r := InsertDraft(doc, tenant, Manual, "", p);
    }

    /** The row of a version, or NotFound. */
    predicate Known(key: Key)
      reads this
    {
      key.tenant in tenants && key in rows
    }

    method Submit(p: Principal, key: Key) returns (r: Response)
      requires Valid()
      modifies this`rows, this`audit, this`stamps, this`sources
      ensures Valid() && Evolves(old(rows), rows)
      ensures r == if p.role !in {Author, Admin} then Forbidden
        else if old(key.tenant !in tenants || key !in rows) then NotFound
        else if old(rows)[key].status != Draft then Conflict else Done
      ensures r != Done ==> Unchanged(old(rows), old(audit))
      ensures r == Done ==>
        Became(old(rows), old(audit), key, old(rows)[key].(status := InReview), [Audit(key, Submitted, p.subject)])
    {
      if !Allowed(p, {Author, Admin}) {
        return Forbidden;
      }
      if !Known(key) {
        return NotFound;
      }
      if rows[key].status != Draft {
        return Conflict;
      }
      Commit(key, rows[key].(status := InReview), Submitted, p.subject, p.role, sources[key]);
      return Done;
    }

    method Approve(p: Principal, key: Key, now: int) returns (r: Response)
      requires Valid()
      modifies this`rows, this`audit, this`stamps, this`sources
      ensures Valid() && Evolves(old(rows), rows)
      ensures r == if p.role !in {Approver, Admin} then Forbidden
        else if old(key.tenant !in tenants || key !in rows) then NotFound
        else if old(rows)[key].status != InReview then Conflict
        else if old(rows)[key].createdBy == p.subject && p.role != Admin then Forbidden else Done
      ensures r != Done ==> Unchanged(old(rows), old(audit))
      ensures r == Done ==>
        Became(old(rows), old(audit), key,
          old(rows)[key].(status := Approved, approvedBy := Some(p.subject), approvedAt := Some(now)),
          [Audit(key, WasApproved, p.subject)])
    {
      if !Allowed(p, {Approver, Admin}) {
        return Forbidden;
      }
      if !Known(key) {
        return NotFound;
      }
      if rows[key].status != InReview {
        return Conflict;
      }
      if rows[key].createdBy == p.subject && p.role != Admin {
        return Forbidden;
      }
      Commit(key, rows[key].(status := Approved, approvedBy := Some(p.subject), approvedAt := Some(now)), WasApproved,
        p.subject, p.role, sources[key]);
      return Done;
    }

    method Reject(p: Principal, key: Key) returns (r: Response)
      requires Valid()
      modifies this`rows, this`audit, this`stamps, this`sources
      ensures Valid() && Evolves(old(rows), rows)
      ensures r == if p.role !in {Reviewer, Approver, Admin} then Forbidden
        else if old(key.tenant !in tenants || key !in rows) then NotFound
        else if old(rows)[key].status != InReview then Conflict else Done
      ensures r != Done ==> Unchanged(old(rows), old(audit))
      ensures r == Done ==>
        Became(old(rows), old(audit), key, old(rows)[key].(status := Draft), [Audit(key, Rejected, p.subject)])
    {
      if !Allowed(p, {Reviewer, Approver, Admin}) {
        return Forbidden;
      }
      if !Known(key) {
        return NotFound;
      }
      if rows[key].status != InReview {
        return Conflict;
      }
      Commit(key, rows[key].(status := Draft), Rejected, p.subject, p.role, sources[key]);
      return Done;
    }

    method Revoke(p: Principal, key: Key) returns (r: Response)
      requires Valid()
      modifies this`rows, this`audit, this`stamps, this`sources
      ensures Valid() && Evolves(old(rows), rows)
      ensures r == if p.role !in {Approver, Admin} then Forbidden
        else if old(key.tenant !in tenants || key !in rows) then NotFound
        else if old(rows)[key].status !in {Approved, Deprecated} then Conflict else Done
      ensures r != Done ==> Unchanged(old(rows), old(audit))
      ensures r == Done ==>
        Became(old(rows), old(audit), key, old(rows)[key].(status := Revoked), [Audit(key, WasRevoked, p.subject)])
    {
      if !Allowed(p, {Approver, Admin}) {
        return Forbidden;
      }
      if !Known(key) {
        return NotFound;
      }
      if rows[key].status !in {Approved, Deprecated} {
        return Conflict;
      }
      Commit(key, rows[key].(status := Revoked), WasRevoked, p.subject, p.role, sources[key]);
      return Done;
    }

    /** A proposal lands as a draft, and as an approved version exactly under rule AA-1. An origin that
        is no origin at all is None. */
    method SubmitProposal(p: Principal, origin: Option<Origin>, changeClass: string, doc: Document,
        tenant: string, now: int)
      returns (r: Response)
      requires Valid()
      modifies this`rows, this`audit, this`stamps, this`sources
      ensures Valid() && Evolves(old(rows), rows)
      ensures r == if p.role !in {Service, Admin} then Forbidden
        else if origin.None? || origin == Some(Manual) || doc.lintErrors then Invalid
        else old(Refusal(doc, tenant))
      ensures r != Done ==> Unchanged(old(rows), old(audit))
      ensures r == Done ==> tenant in tenants && doc.tenant in {None, Some(tenant)} && doc.id != "" && doc.version != ""
      ensures r == Done ==> Key(tenant, doc.id, doc.version) !in old(rows)
      ensures r == Done ==> sources == old(sources)[Key(tenant, doc.id, doc.version) := doc]
      ensures r == Done ==> var key := Key(tenant, doc.id, doc.version);
        if origin == Some(Feed) && changeClass == "monotonic_add"
        then Became(old(rows), old(audit), key,
          Row(Approved, Feed, changeClass, p.subject, Some(AA1_ACTOR), Some(now), Some(AA1)),
          [Audit(key, Created, p.subject), Audit(key, WasApproved, AA1_ACTOR)])
        else Became(old(rows), old(audit), key,
          Row(Draft, origin.value, changeClass, p.subject, None, None, None), [Audit(key, Created, p.subject)])
    {
      if !Allowed(p, {Service, Admin}) {
        return Forbidden;
      }
      if origin.None? || origin == Some(Manual) || doc.lintErrors {
        return Invalid;
      }
      r := InsertDraft(doc, tenant, origin.value, changeClass, p);
      if r == Done && AutoRule(origin.value, changeClass).Some? {
        var key := Key(tenant, doc.id, doc.version);
        TwoCommits(old(rows), old(audit), key, Row(Draft, Feed, changeClass, p.subject, None, None, None),
          Row(Approved, Feed, changeClass, p.subject, Some(AA1_ACTOR), Some(now), Some(AA1)),
          Audit(key, Created, p.subject), Audit(key, WasApproved, AA1_ACTOR));
        AutoApprove(key, now, p.role);
      }
    }

    /** The approval of a draft under rule AA-1. */
    method AutoApprove(key: Key, now: int, ghost role: Role)
      requires Valid() && key in rows && rows[key].status == Draft
      requires AutoRule(rows[key].origin, rows[key].changeClass) == Some(AA1)
      modifies this`rows, this`audit, this`stamps, this`sources
      ensures Valid() && Evolves(old(rows), rows) && sources == old(sources)
      ensures Became(old(rows), old(audit), key,
        old(rows)[key].(status := Approved, approvedBy := Some(AA1_ACTOR), approvedAt := Some(now), rule := Some(AA1)),
        [Audit(key, WasApproved, AA1_ACTOR)])
    {
      var row := rows[key];
      Commit(key, row.(status := Approved, approvedBy := Some(AA1_ACTOR), approvedAt := Some(now), rule := Some(AA1)),
        WasApproved, AA1_ACTOR, role, sources[key]);
    }

    method CreateTenant(p: Principal, slug: string) returns (r: Response)
      requires Valid()
      modifies this`tenants
      ensures Valid()
      ensures r == if p.role != Admin then Forbidden else if slug == "" then Invalid
        else if slug in old(tenants) then Conflict else Done
      ensures tenants == if r == Done then old(tenants) + {slug} else old(tenants)
    {
      if p.role != Admin {
        return Forbidden;
      }
      if slug == "" {
        return Invalid;
      }
      if slug in tenants {
        return Conflict;
      }
      tenants := tenants + {slug};
      return Done;
    }
  }
}
