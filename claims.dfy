/**
 * The claims mock API (mocks/claims_api/main.py): an in-memory table of
 * claims keyed by claim id, seeded with one open claim, with lookup and
 * FNOL (first notice of loss) creation under a random id.
 */
module Claims {
  import opened Wrappers
  import opened Text
  import opened Http

  /** A stored claim; the seeded claim has no external_ref and no docs. */
  datatype Claim = Claim(id: string, status: string, externalRef: Option<string>, docs: Option<int>)

  const OpenStatus: string := "OPEN"
  const SeedClaimId: string := "25-44-069049"

  /** The table the service starts with. */
  const SeedClaims: map<string, Claim> := map[SeedClaimId := Claim(SeedClaimId, OpenStatus, None, None)]

  /** The shape of a claim id: 2 digits, '-', 2 digits, '-', 6 digits. */
  predicate IsClaimId(s: string) {
    && |s| == 12 && s[2] == '-' && s[5] == '-'
    && AllDigits(s[..2]) && AllDigits(s[3..5]) && AllDigits(s[6..])
  }

  /** _gen_id, given the digits random.choices drew: the three groups joined by '-'. */
  function GenId(a: string, b: string, c: string): string
    requires |a| == 2 && |b| == 2 && |c| == 6
    requires AllDigits(a) && AllDigits(b) && AllDigits(c)
  {
    a + "-" + b + "-" + c
  }

  /** Every generated id has the claim-id shape, and every claim id is generated from its own three groups. */
  lemma GenIdShape(a: string, b: string, c: string)
    requires |a| == 2 && |b| == 2 && |c| == 6
    requires AllDigits(a) && AllDigits(b) && AllDigits(c)
    ensures IsClaimId(GenId(a, b, c))
    ensures GenId(a, b, c)[..2] == a && GenId(a, b, c)[3..5] == b && GenId(a, b, c)[6..] == c
  {
    var s := GenId(a, b, c);
    assert s[..2] == a && s[3..5] == b && s[6..] == c;
  }

  lemma ClaimIdIsGenerated(s: string)
    requires IsClaimId(s)
    ensures s == GenId(s[..2], s[3..5], s[6..])
  {
  }

  /** The seeded claim has a well-formed id. */
  lemma SeedIdIsClaimId()
    ensures IsClaimId(SeedClaimId)
  {
    assert SeedClaimId[..2] == "25" && SeedClaimId[3..5] == "44" && SeedClaimId[6..] == "069049";
  }

  /** get_claim on a table: the stored claim, or 404 "Not found". */
  function GetSpec(claims: map<string, Claim>, id: string): (r: Result<Claim, HttpError>)
    ensures r.Ok? <==> id in claims
    ensures r.Ok? ==> r.value == claims[id]
    ensures r.Err? ==> r.error == HttpError(404, "Not found")
  {
    if id in claims then Ok(claims[id]) else Err(HttpError(404, "Not found"))
  }

  /** The claim create_fnol stores: open, with the request's external_ref and docs, docs defaulting to 0. */
  function FnolClaim(id: string, externalRef: string, docs: Option<int>): Claim {
    Claim(id, OpenStatus, Some(externalRef), Some(docs.GetOr(0)))
  }

  /** The table after create_fnol under the generated id. */
  function FnolSpec(claims: map<string, Claim>, id: string, externalRef: string, docs: Option<int>): map<string, Claim> {
    claims[id := FnolClaim(id, externalRef, docs)]
  }

  /** After create_fnol, get_claim of the new id returns the new open claim; every other id reads as before. */
  lemma FnolThenGet(claims: map<string, Claim>, id: string, externalRef: string, docs: Option<int>, other: string)
    requires other != id
    ensures GetSpec(FnolSpec(claims, id, externalRef, docs), id) == Ok(Claim(id, OpenStatus, Some(externalRef), Some(docs.GetOr(0))))
    ensures GetSpec(FnolSpec(claims, id, externalRef, docs), other) == GetSpec(claims, other)
  {
  }

  /** A request without docs stores 0 docs. */
  lemma FnolDocsDefault(id: string, externalRef: string)
    ensures FnolClaim(id, externalRef, None).docs == Some(0)
  {
  }

  /** The initial table holds exactly the seeded open claim. */
  lemma SeedTable(id: string)
    ensures GetSpec(SeedClaims, id).Ok? <==> id == SeedClaimId
    ensures GetSpec(SeedClaims, SeedClaimId) == Ok(Claim(SeedClaimId, OpenStatus, None, None))
  {
  }

  /** The claims table as the service's module-level dict. */
  class ClaimStore {
    var claims: map<string, Claim>

    constructor()
      ensures claims == SeedClaims
    {
      claims := SeedClaims;
    }

    /** get_claim: the stored claim unchanged, or 404. */
    method GetClaim(id: string) returns (r: Result<Claim, HttpError>)
      ensures r == GetSpec(claims, id)
    {
      if id !in claims {
        return Err(HttpError(404, "Not found"));
      }
      r := Ok(claims[id]);
    }

    /**
     * create_fnol. The id comes from _gen_id and is supplied here, in its
     * shape; an id already in use is overwritten, as the dict assignment does.
     */
    method CreateFnol(externalRef: string, docs: Option<int>, genId: string) returns (c: Claim)
      requires IsClaimId(genId)
      modifies this
      ensures c == FnolClaim(genId, externalRef, docs)
      ensures claims == FnolSpec(old(claims), genId, externalRef, docs)
    {
      c := Claim(genId, OpenStatus, Some(externalRef), Some(docs.GetOr(0)));
      claims := claims[genId := c];
    }
  }
}
