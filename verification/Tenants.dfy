/** services/tenants/tenant_service.py: slugs, and the creation of a tenant with its domain. */
module Tenants {
  import opened Prelude

  // ---- Slugs ----

  predicate SlugChar(c: char) { IsLower(c) || IsDigit(c) }

  function Hyphenate(s: string): (r: string)
    ensures |r| == |s| && forall i :: 0 <= i < |s| ==> r[i] == if s[i] == ' ' then '-' else s[i]
  {
    seq(|s|, i requires 0 <= i < |s| => if s[i] == ' ' then '-' else s[i])
  }

  /** `normalize_slug`; `None` stands for the ValidationServiceError on an empty slug. */
  function NormalizeSlug(slug: string): Option<string> {
    var normalized := Hyphenate(Lower(Strip(slug)));
    if normalized == "" then None else Some(normalized)
  }

  /** `[a-z0-9]+(?:-[a-z0-9]+)*` against the whole of `s`, as a scan: `atStart` says that a part starts here and
      still needs its first character. */
  predicate Scan(s: string, atStart: bool) {
    if s == "" then !atStart
    else if SlugChar(s[0]) then Scan(s[1..], false)
    else s[0] == '-' && !atStart && Scan(s[1..], true)
  }

  /** `_SLUG_PATTERN.match`: in Python `$` also matches just before a trailing newline. */
  predicate PatternMatches(s: string) {
    Scan(s, true) || (s != "" && s[|s| - 1] == '\n' && Scan(s[..|s| - 1], true))
  }

  /** `validate_slug`; `None` stands for a ValidationServiceError. */
  function ValidateSlug(slug: string): Option<string> {
    var normalized := NormalizeSlug(slug);
    if normalized.Some? && PatternMatches(normalized.value) then normalized else None
  }

  /** Non-empty parts of lower-case letters and digits. */
  predicate SlugParts(parts: seq<string>) {
    parts != [] && forall i :: 0 <= i < |parts| ==> SlugPart(parts[i])
  }

  predicate SlugPart(part: string) {
    part != "" && forall i :: 0 <= i < |part| ==> 'a' <= part[i] <= 'z' || '0' <= part[i] <= '9'
  }

  ghost predicate Hyphenated(slug: string) {
    exists parts :: SlugParts(parts) && slug == Join("-", parts)
  }

  lemma {:induction false} ScanAcceptsParts(parts: seq<string>)
    requires SlugParts(parts)
    ensures Scan(Join("-", parts), true)
    decreases |parts|
  {
    if |parts| == 1 {
      ScanInsidePart(parts[0], "");
      assert parts[0] + "" == parts[0];
    } else {
      var tail := "-" + Join("-", parts[1..]);
      ScanAcceptsParts(parts[1..]);
      assert tail[1..] == Join("-", parts[1..]);
      ScanInsidePart(parts[0], tail);
      assert Join("-", parts) == parts[0] + tail;
    }
  }

  lemma {:induction false} ScanInsidePart(part: string, tail: string)
    requires SlugPart(part) && Scan(tail, false)
    ensures Scan(part + tail, true) && Scan(part + tail, false)
  {
    assert (part + tail)[1..] == part[1..] + tail;
    if |part| == 1 {
      assert part[1..] + tail == tail;
    } else {
      ScanInsidePart(part[1..], tail);
    }
  }

  /** The parts the scan saw. In the middle of a part (`!atStart`) the first of them may be empty. */
  lemma {:induction false} PartsOfScan(s: string, atStart: bool) returns (parts: seq<string>)
    requires Scan(s, atStart)
    ensures parts != [] && s == Join("-", parts)
    ensures forall i :: 1 <= i < |parts| ==> SlugPart(parts[i])
    ensures parts[0] == "" ==> !atStart
    ensures parts[0] != "" ==> SlugPart(parts[0])
  {
    if s == "" {
      parts := [""];
    } else if SlugChar(s[0]) {
      var rest := PartsOfScan(s[1..], false);
      parts := [s[..1] + rest[0]] + rest[1..];
      assert parts[1..] == rest[1..];
      JoinHead(s[..1], rest);
    } else {
      var rest := PartsOfScan(s[1..], true);
      parts := [""] + rest;
      assert parts[1..] == rest;
    }
  }

  lemma JoinHead(head: string, parts: seq<string>)
    requires parts != []
    ensures Join("-", [head + parts[0]] + parts[1..]) == head + Join("-", parts)
  {
  }

  /** The pattern by itself matches hyphenated text, with or without a newline behind it. */
  lemma PatternMatchesExactly(s: string)
    ensures PatternMatches(s) <==>
      Hyphenated(s) || (s != "" && s[|s| - 1] == '\n' && Hyphenated(s[..|s| - 1]))
  {
    ScanIsHyphenated(s);
    if s != "" {
      ScanIsHyphenated(s[..|s| - 1]);
    }
  }

  lemma ScanIsHyphenated(s: string)
    ensures Scan(s, true) <==> Hyphenated(s)
  {
    if Scan(s, true) {
      var parts := PartsOfScan(s, true);
    }
    if parts :| SlugParts(parts) && s == Join("-", parts) {
      ScanAcceptsParts(parts);
    }
  }

  lemma StripBeforeCase(slug: string)
    ensures Trimmed(Hyphenate(Lower(Strip(slug))))
  {
    StripTrims(slug);
  }

  /** The validator accepts exactly the inputs whose normal form is a list of non-empty [a-z0-9] parts joined by
      hyphens, and then returns that normal form: stripping has removed the newline that `$` would let through. */
  lemma ValidSlugsAreHyphenated(slug: string)
    ensures var normalized := Hyphenate(Lower(Strip(slug)));
      && (ValidateSlug(slug).Some? <==> Hyphenated(normalized))
      && (ValidateSlug(slug).Some? ==> ValidateSlug(slug).value == normalized)
  {
    var normalized := Hyphenate(Lower(Strip(slug)));
    StripBeforeCase(slug);
    ScanIsHyphenated(normalized);
  }

  lemma {:induction false} ScannedCharacters(s: string, atStart: bool)
    requires Scan(s, atStart)
    ensures forall i :: 0 <= i < |s| ==> SlugChar(s[i]) || s[i] == '-'
  {
    if s == "" {
    } else {
      ScannedCharacters(s[1..], !SlugChar(s[0]));
    }
  }

  /** A validated slug validates to itself. */
  lemma ValidateSlugIsIdempotent(slug: string)
    requires ValidateSlug(slug).Some?
    ensures ValidateSlug(ValidateSlug(slug).value) == ValidateSlug(slug)
  {
    var valid := ValidateSlug(slug).value;
    StripBeforeCase(slug);
    ScannedCharacters(valid, true);
    StripOfTrimmed(valid);
    assert Hyphenate(Lower(valid)) == valid;
  }

  // ---- Tables ----

  datatype Tenant = Tenant(name: string, slug: string, schemaName: string, isActive: bool)
  datatype Domain = Domain(tenant: nat, domain: string, isPrimary: bool)
  datatype Tables = Tables(tenants: map<nat, Tenant>, domains: map<nat, Domain>)

  predicate SchemaTaken(tenants: map<nat, Tenant>, schema: string) {
    exists t :: t in tenants && tenants[t].schemaName == schema
  }

  predicate SlugTaken(tenants: map<nat, Tenant>, slug: string) {
    exists t :: t in tenants && tenants[t].slug == slug
  }

  predicate DomainTaken(domains: map<nat, Domain>, domain: string) {
    exists d :: d in domains && domains[d].domain == domain
  }

  /** The unique columns and the foreign key. */
  ghost predicate DatabaseKeys(tables: Tables) {
    && (forall a, b :: a in tables.tenants && b in tables.tenants && a != b ==>
         && tables.tenants[a].schemaName != tables.tenants[b].schemaName
         && tables.tenants[a].slug != tables.tenants[b].slug)
    && (forall a, b :: a in tables.domains && b in tables.domains && a != b ==>
         tables.domains[a].domain != tables.domains[b].domain)
    && (forall d :: d in tables.domains ==> tables.domains[d].tenant in tables.tenants)
  }

  /** What creation by the service keeps on top of the database's own constraints. */
  ghost predicate ServiceInvariant(tables: Tables) {
    DatabaseKeys(tables) && forall t :: t in tables.tenants ==> Served(tables, t)
  }

  /** The tenant's two identifiers agree and are hyphenated, and some domain leads to it. */
  ghost predicate Served(tables: Tables, t: nat)
    requires t in tables.tenants
  {
    && tables.tenants[t].slug == tables.tenants[t].schemaName
    && Hyphenated(tables.tenants[t].slug)
    && HasDomain(tables.domains, t)
  }

  predicate HasDomain(domains: map<nat, Domain>, t: nat) {
    exists d :: d in domains && domains[d].tenant == t
  }

  /** The outcomes of `create_tenant`. `IntegrityError` is the database refusing a row the service let through. */
  datatype Outcome = Created(tenant: nat, domain: nat) | ValidationError | ConflictError | IntegrityError

  /** `tid` and `did` are the fresh primary keys. */
  function Create(tables: Tables, name: string, schema: string, domain: string, isPrimary: bool, tid: nat, did: nat)
    : (r: (Tables, Outcome))
  {
    var slug := ValidateSlug(schema);
    var host := Lower(Strip(domain));
    if slug.None? || host == "" then (tables, ValidationError)
    else if SchemaTaken(tables.tenants, slug.value) || DomainTaken(tables.domains, host) then (tables, ConflictError)
    else if SlugTaken(tables.tenants, slug.value) then (tables, IntegrityError)
    else (Insert(tables, tid, Tenant(Strip(name), slug.value, slug.value, true), did, Domain(tid, host, isPrimary)),
          Created(tid, did))
  }

  function Insert(tables: Tables, tid: nat, tenant: Tenant, did: nat, domain: Domain): Tables {
    Tables(tables.tenants[tid := tenant], tables.domains[did := domain])
  }

  class TenantService {
    var tenants: map<nat, Tenant>
    var domains: map<nat, Domain>

    constructor ()
      ensures tenants == map[] && domains == map[]
    {
      tenants, domains := map[], map[];
    }

    /** Both rows or neither: the two inserts are one transaction. */
    method CreateTenant(name: string, schema: string, domain: string, isPrimary: bool, tid: nat, did: nat)
      returns (outcome: Outcome)
      requires DatabaseKeys(Tables(tenants, domains))
      requires tid !in tenants && did !in domains
      modifies this
      ensures (Tables(tenants, domains), outcome)
              == Create(Tables(old(tenants), old(domains)), name, schema, domain, isPrimary, tid, did)
      ensures DatabaseKeys(Tables(tenants, domains))
      ensures !outcome.Created? ==> tenants == old(tenants) && domains == old(domains)
    {
      var slug := ValidateSlug(schema);
      if slug.None? { return ValidationError; }
      var host := Lower(Strip(domain));
      if host == "" { return ValidationError; }
      if SchemaTaken(tenants, slug.value) { return ConflictError; }
      if DomainTaken(domains, host) { return ConflictError; }
      var savedTenants := tenants;
      tenants := tenants[tid := Tenant(Strip(name), slug.value, slug.value, true)];
      if SlugTaken(savedTenants, slug.value) {
        tenants := savedTenants;
        return IntegrityError;
      }
      domains := domains[did := Domain(tid, host, isPrimary)];
      return Created(tid, did);
    }
  }

  /** When a creation succeeds: the slug and the domain are valid, and neither is in use. Then it adds these two rows;
      in every other case it changes nothing. */
  lemma CreateSucceedsExactly(tables: Tables, c: Call)
    ensures var (t, outcome) := Create(tables, c.name, c.schema, c.domain, c.isPrimary, c.tid, c.did);
      var slug, host := Hyphenate(Lower(Strip(c.schema))), Lower(Strip(c.domain));
      var isValid := Hyphenated(slug) && host != "";
      var isTaken := (exists a :: a in tables.tenants && tables.tenants[a].schemaName == slug)
                     || (exists d :: d in tables.domains && tables.domains[d].domain == host);
      var isRefused := exists a :: a in tables.tenants && tables.tenants[a].slug == slug;
      && (outcome == ValidationError <==> !isValid)
      && (outcome == ConflictError <==> isValid && isTaken)
      && (outcome == IntegrityError <==> isValid && !isTaken && isRefused)
      && (outcome == Created(c.tid, c.did) <==> isValid && !isTaken && !isRefused)
      && (outcome.Created? ==> t == Tables(tables.tenants[c.tid := Tenant(Strip(c.name), slug, slug, true)],
                                           tables.domains[c.did := Domain(c.tid, host, c.isPrimary)]))
      && (!outcome.Created? ==> t == tables)
  {
    ValidSlugsAreHyphenated(c.schema);
  }

  // ---- Runs ----

  datatype Call = Call(name: string, schema: string, domain: string, isPrimary: bool, tid: nat, did: nat)

  function CreateAll(calls: seq<Call>): Tables {
    if calls == [] then Tables(map[], map[])
    else
      var before, c := CreateAll(calls[..|calls| - 1]), calls[|calls| - 1];
      Create(before, c.name, c.schema, c.domain, c.isPrimary, c.tid, c.did).0
  }

  /** Primary keys are never reused. */
  predicate FreshKeys(calls: seq<Call>) {
    forall i, j :: 0 <= i < j < |calls| ==> calls[i].tid != calls[j].tid && calls[i].did != calls[j].did
  }

  lemma InsertKeepsDatabaseKeys(tables: Tables, tid: nat, tenant: Tenant, did: nat, domain: Domain)
    requires DatabaseKeys(tables) && tid !in tables.tenants && did !in tables.domains
    requires !SchemaTaken(tables.tenants, tenant.schemaName) && !SlugTaken(tables.tenants, tenant.slug)
    requires domain.tenant == tid && !DomainTaken(tables.domains, domain.domain)
    ensures DatabaseKeys(Insert(tables, tid, tenant, did, domain))
  {
  }

  lemma InsertKeepsServed(tables: Tables, tid: nat, tenant: Tenant, did: nat, domain: Domain, t: nat)
    requires did !in tables.domains && domain.tenant == tid
    requires t != tid ==> t in tables.tenants && Served(tables, t)
    requires tenant.slug == tenant.schemaName && Hyphenated(tenant.slug)
    ensures Served(Insert(tables, tid, tenant, did, domain), t)
  {
    var after := tables.domains[did := domain];
    if t == tid {
      assert after[did].tenant == t;
    } else {
      var d :| d in tables.domains && tables.domains[d].tenant == t;
      assert after[d].tenant == t;
    }
  }

  lemma InsertKeepsInvariant(tables: Tables, tid: nat, tenant: Tenant, did: nat, domain: Domain)
    requires ServiceInvariant(tables) && tid !in tables.tenants && did !in tables.domains
    requires tenant.slug == tenant.schemaName && Hyphenated(tenant.slug)
    requires !SchemaTaken(tables.tenants, tenant.slug) && !SlugTaken(tables.tenants, tenant.slug)
    requires domain.tenant == tid && !DomainTaken(tables.domains, domain.domain)
    ensures ServiceInvariant(Insert(tables, tid, tenant, did, domain))
  {
    InsertKeepsDatabaseKeys(tables, tid, tenant, did, domain);
    forall t | t in Insert(tables, tid, tenant, did, domain).tenants
      ensures Served(Insert(tables, tid, tenant, did, domain), t)
    {
      InsertKeepsServed(tables, tid, tenant, did, domain, t);
    }
  }

  /** One call keeps the invariant, and under it the service's own check on schema_name also protects the slug:
      the database never has to refuse. */
  lemma CreateKeepsInvariant(tables: Tables, c: Call)
    requires ServiceInvariant(tables) && c.tid !in tables.tenants && c.did !in tables.domains
    ensures var r := Create(tables, c.name, c.schema, c.domain, c.isPrimary, c.tid, c.did);
      && ServiceInvariant(r.0)
      && !r.1.IntegrityError?
  {
    var slug, host := ValidateSlug(c.schema), Lower(Strip(c.domain));
    if slug.Some? && host != "" && !SchemaTaken(tables.tenants, slug.value) && !DomainTaken(tables.domains, host) {
      ValidSlugsAreHyphenated(c.schema);
      assert !SlugTaken(tables.tenants, slug.value) by {
        assert forall t :: t in tables.tenants ==> Served(tables, t);
      }
      InsertKeepsInvariant(tables, c.tid, Tenant(Strip(c.name), slug.value, slug.value, true),
                           c.did, Domain(c.tid, host, c.isPrimary));
    }
  }

  /** Every sequence of calls keeps slug = schema_name, unique schema names, slugs and domains, and at least one
      domain per tenant. */
  lemma {:induction false} CreationsKeepInvariant(calls: seq<Call>)
    requires FreshKeys(calls)
    ensures ServiceInvariant(CreateAll(calls))
  {
    if calls == [] {
    } else {
      var n := |calls| - 1;
      CreationsKeepInvariant(calls[..n]);
      KeysComeFromCalls(calls[..n], calls[n].tid, calls[n].did);
      CreateKeepsInvariant(CreateAll(calls[..n]), calls[n]);
    }
  }

  lemma {:induction false} KeysComeFromCalls(calls: seq<Call>, tid: nat, did: nat)
    requires forall i :: 0 <= i < |calls| ==> calls[i].tid != tid && calls[i].did != did
    ensures tid !in CreateAll(calls).tenants && did !in CreateAll(calls).domains
  {
    if calls == [] {
    } else {
      var n := |calls| - 1;
      KeysComeFromCalls(calls[..n], tid, did);
      CreateAddsOnlyItsKeys(CreateAll(calls[..n]), calls[n]);
    }
  }

  lemma CreateAddsOnlyItsKeys(tables: Tables, c: Call)
    ensures var after := Create(tables, c.name, c.schema, c.domain, c.isPrimary, c.tid, c.did).0;
      && after.tenants.Keys <= tables.tenants.Keys + {c.tid}
      && after.domains.Keys <= tables.domains.Keys + {c.did}
  {
  }

  // ---- What the middleware will read ----

  /** `Domain.objects.select_related("tenant").get(domain=host)`: the tenant's key and whether it is active. */
  datatype Resolved = Resolved(tenant: nat, isActive: bool)

  ghost function LookUp(tables: Tables, host: string): Option<Resolved>
    requires DatabaseKeys(tables)
  {
    if DomainTaken(tables.domains, host) then
      var d :| d in tables.domains && tables.domains[d].domain == host;
      Some(Resolved(tables.domains[d].tenant, tables.tenants[tables.domains[d].tenant].isActive))
    else None
  }

  lemma LookUpFinds(tables: Tables, d: nat)
    requires DatabaseKeys(tables) && d in tables.domains
    ensures LookUp(tables, tables.domains[d].domain)
            == Some(Resolved(tables.domains[d].tenant, tables.tenants[tables.domains[d].tenant].isActive))
  {
  }

  lemma InsertRegistersOneHost(tables: Tables, tid: nat, tenant: Tenant, did: nat, domain: Domain)
    requires DatabaseKeys(tables) && tid !in tables.tenants && did !in tables.domains
    requires tenant.slug == tenant.schemaName
    requires !SchemaTaken(tables.tenants, tenant.slug) && !SlugTaken(tables.tenants, tenant.slug)
    requires domain.tenant == tid && !DomainTaken(tables.domains, domain.domain)
    ensures var after := Insert(tables, tid, tenant, did, domain);
      && DatabaseKeys(after)
      && LookUp(tables, domain.domain) == None
      && LookUp(after, domain.domain) == Some(Resolved(tid, tenant.isActive))
      && forall other :: other != domain.domain ==> LookUp(after, other) == LookUp(tables, other)
  {
    var after := Insert(tables, tid, tenant, did, domain);
    InsertKeepsDatabaseKeys(tables, tid, tenant, did, domain);
    LookUpFinds(after, did);
    forall other | other != domain.domain
      ensures LookUp(after, other) == LookUp(tables, other)
    {
      if DomainTaken(tables.domains, other) {
        var d :| d in tables.domains && tables.domains[d].domain == other;
        assert after.domains[d] == tables.domains[d];
        LookUpFinds(after, d);
        LookUpFinds(tables, d);
      }
    }
  }

  /** A successful creation registers one unknown host, for a new active tenant, and changes no other answer. */
  lemma CreationRegistersOneHost(tables: Tables, c: Call)
    requires DatabaseKeys(tables) && c.tid !in tables.tenants && c.did !in tables.domains
    requires Create(tables, c.name, c.schema, c.domain, c.isPrimary, c.tid, c.did).1.Created?
    ensures var after := Create(tables, c.name, c.schema, c.domain, c.isPrimary, c.tid, c.did).0;
      var host := Lower(Strip(c.domain));
      && DatabaseKeys(after)
      && LookUp(tables, host) == None
      && LookUp(after, host) == Some(Resolved(c.tid, true))
      && forall other :: other != host ==> LookUp(after, other) == LookUp(tables, other)
  {
    var slug, host := ValidateSlug(c.schema).value, Lower(Strip(c.domain));
    InsertRegistersOneHost(tables, c.tid, Tenant(Strip(c.name), slug, slug, true), c.did,
      Domain(c.tid, host, c.isPrimary));
  }
}
