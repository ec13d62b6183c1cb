/** `core/checkpoints.py`: signed witnesses of a tenant's chain, and their confrontation with the journal. */
module Checkpoints {
  import opened Basics
  import opened JsonText
  import opened Timestamps
  import opened HashChain
  import opened Journal

  const ALGORITHM := "ed25519"

  /** What a witness says: the eight fields that are signed. */
  datatype Claim = Claim(
    tenant: string,
    entries: int,
    lastAuditId: Option<int>,
    lastEntryHash: string,
    at: Instant,
    algorithm: string,
    keyId: string,
    publicKey: string)

  /** The keys of `entry_digest`, sorted. */
  const CLAIM_KEYS := [
    "algorithm", "at", "entries", "key_id", "last_audit_id", "last_entry_hash", "public_key", "tenant_id"
  ]

  function ClaimColumn(c: Claim, i: int): Json {
    match i
    case 0 => Str(c.algorithm)
    case 1 => Str(CanonicalTs(c.at))
    case 2 => Int(c.entries)
    case 3 => Str(c.keyId)
    case 4 => OptInt(c.lastAuditId)
    case 5 => Str(c.lastEntryHash)
    case 6 => Str(c.publicKey)
    case _ => Str(c.tenant)
  }

  function ClaimColumnsOf(c: Claim): int -> Json { i => ClaimColumn(c, i) }

  function ClaimText(c: Claim): string { Text(Record(CLAIM_KEYS, ClaimColumnsOf(c))) }

  /** `entry_digest` */
  function EntryDigest(sha: Sha, c: Claim): string { sha(ClaimText(c)) }

  predicate SameClaimColumn(c: Claim, d: Claim, i: int) { ClaimColumn(c, i) == ClaimColumn(d, i) }

  lemma FirstClaimColumns(c: Claim, d: Claim)
    requires forall i :: 0 <= i < 4 ==> SameClaimColumn(c, d, i)
    ensures c.algorithm == d.algorithm && c.at == d.at && c.entries == d.entries && c.keyId == d.keyId
  {
    assert SameClaimColumn(c, d, 0) && SameClaimColumn(c, d, 1) && SameClaimColumn(c, d, 2) && SameClaimColumn(c, d, 3);
    CanonicalTsInjective(c.at, d.at);
  }

  lemma LastClaimColumns(c: Claim, d: Claim)
    requires forall i :: 4 <= i < 8 ==> SameClaimColumn(c, d, i)
    ensures c.lastAuditId == d.lastAuditId && c.lastEntryHash == d.lastEntryHash
    ensures c.publicKey == d.publicKey && c.tenant == d.tenant
  {
    assert SameClaimColumn(c, d, 4) && SameClaimColumn(c, d, 5) && SameClaimColumn(c, d, 6) && SameClaimColumn(c, d, 7);
  }

  lemma ClaimColumnExact(c: Claim, i: int)
    ensures Exact(ClaimColumn(c, i))
  {
  }

  lemma ClaimColumnsEqual(c: Claim, d: Claim)
    requires ClaimText(c) == ClaimText(d)
    ensures forall i :: 0 <= i < 8 ==> SameClaimColumn(c, d, i)
  {
    forall i ensures Exact(ClaimColumnsOf(c)(i)) && Exact(ClaimColumnsOf(d)(i)) {
      ClaimColumnExact(c, i);
      ClaimColumnExact(d, i);
    }
    RecordInjective(CLAIM_KEYS, ClaimColumnsOf(c), ClaimColumnsOf(d));
    forall i | 0 <= i < 8 ensures SameClaimColumn(c, d, i) {
      assert ClaimColumnsOf(c)(i) == ClaimColumnsOf(d)(i);
    }
  }

  /** The signed text determines every field of the claim. */
  lemma ClaimInjective(c: Claim, d: Claim)
    requires ClaimText(c) == ClaimText(d)
    ensures c == d
  {
    ClaimColumnsEqual(c, d);
    FirstClaimColumns(c, d);
    LastClaimColumns(c, d);
  }

  /** A row of `audit_checkpoints`; its tenant is the one it was queried for. */
  datatype Checkpoint = Checkpoint(
    id: int,
    entries: int,
    lastAuditId: Option<int>,
    lastEntryHash: string,
    at: Instant,
    algorithm: string,
    keyId: string,
    publicKey: string,
    signature: string,
    entryDigest: string,
    prevHash: string,
    entryHash: string)

  function ClaimOf(tenant: string, c: Checkpoint): Claim {
    Claim(tenant, c.entries, c.lastAuditId, c.lastEntryHash, c.at, c.algorithm, c.keyId, c.publicKey)
  }

  /** Ed25519 verification: public key, message, signature.  A key or signature that does not decode fails. */
  type SignatureCheck = (string, string, string) -> bool

  predicate SignatureValid(valid: SignatureCheck, c: Checkpoint) {
    c.algorithm == ALGORITHM && valid(c.publicKey, c.entryDigest, c.signature)
  }

  // ---------------------------------------------------------------- verification

  datatype Detail =
    | Rewritten(id: int)
    | BadSignature(id: int)
    | BrokenWitnessChain(id: int)
    | FewerEntries(id: int, earlier: int)
    | MissingEntries(count: int, id: int)
    | EntryGone(auditId: int, id: int)
    | HashDiffers(auditId: int, id: int)

  datatype Verification = Verification(checkpoints: nat, ok: bool, truncated: bool, detail: Option<Detail>)

  function WitnessTip(cps: seq<Checkpoint>): string {
    if cps == [] then GENESIS else cps[|cps| - 1].entryHash
  }

  /** The controls of the loop on one witness, in order. */
  function StepFault(sha: Sha, valid: SignatureCheck, tenant: string, before: seq<Checkpoint>,
      c: Checkpoint): Option<Detail> {
    var digest := EntryDigest(sha, ClaimOf(tenant, c));
    if digest != c.entryDigest then Some(Rewritten(c.id))
    else if !SignatureValid(valid, c) then Some(BadSignature(c.id))
    else if c.prevHash != WitnessTip(before) || sha(WitnessTip(before) + digest) != c.entryHash
    then Some(BrokenWitnessChain(c.id))
    else if before != [] && c.entries < before[|before| - 1].entries
    then Some(FewerEntries(c.id, before[|before| - 1].id))
    else None
  }

  /** The first fault of the witnesses among themselves. */
  function WitnessFault(sha: Sha, valid: SignatureCheck, tenant: string, cps: seq<Checkpoint>): Option<Detail> {
    if cps == [] then None
    else
      var before := cps[..|cps| - 1];
      var earlier := WitnessFault(sha, valid, tenant, before);
      if earlier.Some? then earlier else StepFault(sha, valid, tenant, before, cps[|cps| - 1])
  }

  /** `count(*) ... where tenant_id = t and id <= upTo`, on the rows of `t` */
  function CountUpTo(own: seq<Row>, upTo: int): nat {
    if own == [] then 0
    else CountUpTo(own[..|own| - 1], upTo) + if own[|own| - 1].id <= upTo then 1 else 0
  }

  /** `entry_hash ... where tenant_id = t and id = i`, on the rows of `t` */
  function HashAt(own: seq<Row>, id: int): Option<string> {
    if own == [] then None
    else if own[|own| - 1].id == id then Some(own[|own| - 1].entryHash)
    else HashAt(own[..|own| - 1], id)
  }

  /** What is answered once the witnesses agree and the journal has been read. */
  function Confront(cps: seq<Checkpoint>, present: nat, hash: Option<string>): Verification
    requires cps != []
  {
    var last := cps[|cps| - 1];
    if last.lastAuditId.None? then Verification(|cps|, true, false, None)
    else if present < last.entries then
      Verification(|cps|, false, true, Some(MissingEntries(last.entries - present, last.id)))
    else if hash.None? then Verification(|cps|, false, true, Some(EntryGone(last.lastAuditId.value, last.id)))
    else if hash.value != last.lastEntryHash then
      Verification(|cps|, false, false, Some(HashDiffers(last.lastAuditId.value, last.id)))
    else Verification(|cps|, true, false, None)
  }

  /** The whole answer for witnesses `cps` and journal rows `own`, both of `tenant`. */
  function Verdict(sha: Sha, valid: SignatureCheck, tenant: string, cps: seq<Checkpoint>, own: seq<Row>): Verification {
    if cps == [] then Verification(0, true, false, None)
    else
      var fault := WitnessFault(sha, valid, tenant, cps);
      var lastId := cps[|cps| - 1].lastAuditId;
      if fault.Some? then Verification(|cps|, false, false, fault)
      else if lastId.None? then Confront(cps, 0, None)
      else Confront(cps, CountUpTo(own, lastId.value), HashAt(own, lastId.value))
  }

  lemma {:induction false} FaultStays(sha: Sha, valid: SignatureCheck, tenant: string, cps: seq<Checkpoint>, k: nat)
    requires k <= |cps| && WitnessFault(sha, valid, tenant, cps[..k]).Some?
    ensures WitnessFault(sha, valid, tenant, cps) == WitnessFault(sha, valid, tenant, cps[..k])
  {
    if k == |cps| {
      assert cps[..k] == cps;
    } else {
      assert cps[..|cps| - 1][..k] == cps[..k];
      FaultStays(sha, valid, tenant, cps[..|cps| - 1], k);
    }
  }

  lemma FaultStep(sha: Sha, valid: SignatureCheck, tenant: string, cps: seq<Checkpoint>, k: nat)
    requires k < |cps| && WitnessFault(sha, valid, tenant, cps[..k]).None?
    ensures WitnessFault(sha, valid, tenant, cps[..k + 1]) == StepFault(sha, valid, tenant, cps[..k], cps[k])
  {
    assert cps[..k + 1][..k] == cps[..k];
  }

  /** `verify` */
  method Verify(sha: Sha, valid: SignatureCheck, tenant: string, cps: seq<Checkpoint>, rows: seq<Row>)
    returns (v: Verification)
    ensures v == Verdict(sha, valid, tenant, cps, OfTenant(rows, tenant))
  {
    hide Intact, OfTenant, CountUpTo, HashAt, ClaimText;
    if cps == [] { return Verification(0, true, false, None); }
    var prev := GENESIS;
    var preceding: Option<Checkpoint> := None;
    for k := 0 to |cps|
      invariant WitnessFault(sha, valid, tenant, cps[..k]).None?
      invariant prev == WitnessTip(cps[..k])
      invariant preceding == if k == 0 then None else Some(cps[k - 1])
    {
      var c := cps[k];
      var expected := EntryDigest(sha, ClaimOf(tenant, c));
      var fault: Option<Detail> := None;
      if expected != c.entryDigest {
        fault := Some(Rewritten(c.id));
      } else if !SignatureValid(valid, c) {
        fault := Some(BadSignature(c.id));
      } else if c.prevHash != prev || sha(prev + expected) != c.entryHash {
        fault := Some(BrokenWitnessChain(c.id));
      } else if preceding.Some? && c.entries < preceding.value.entries {
        fault := Some(FewerEntries(c.id, preceding.value.id));
      }
      FaultStep(sha, valid, tenant, cps, k);
      if fault.Some? {
        FaultStays(sha, valid, tenant, cps, k + 1);
        return Verification(|cps|, false, false, fault);
      }
      prev := c.entryHash;
      preceding := Some(c);
    }
    assert cps[..|cps|] == cps;
    var last := cps[|cps| - 1];
    if last.lastAuditId.None? { return Verification(|cps|, true, false, None); }
    var own := OfTenant(rows, tenant);
    var present := CountUpTo(own, last.lastAuditId.value);
    if present < last.entries {
      return Verification(|cps|, false, true, Some(MissingEntries(last.entries - present, last.id)));
    }
    var hash := HashAt(own, last.lastAuditId.value);
    if hash.None? { return Verification(|cps|, false, true, Some(EntryGone(last.lastAuditId.value, last.id))); }
    if hash.value != last.lastEntryHash {
      return Verification(|cps|, false, false, Some(HashDiffers(last.lastAuditId.value, last.id)));
    }
    v := Verification(|cps|, true, false, None);
  }

  // ---------------------------------------------------------------- what the witnesses pin of each other

  /** A witness names the one before it, is chained to it, carries the digest of its own claim and a valid signature of
      it, and counts no fewer entries. */
  predicate WitnessOk(sha: Sha, valid: SignatureCheck, tenant: string, cps: seq<Checkpoint>, i: nat)
    requires i < |cps|
  {
    && DigestOk(sha, tenant, cps[i]) && SignatureOk(valid, cps[i]) && LinkOk(sha, cps, i) && CountOk(cps, i)
  }

  predicate DigestOk(sha: Sha, tenant: string, c: Checkpoint) {
    c.entryDigest
    == sha(ClaimText(Claim(tenant, c.entries, c.lastAuditId, c.lastEntryHash, c.at, c.algorithm, c.keyId, c.publicKey)))
  }

  predicate SignatureOk(valid: SignatureCheck, c: Checkpoint) {
    c.algorithm == "ed25519" && valid(c.publicKey, c.entryDigest, c.signature)
  }

  predicate LinkOk(sha: Sha, cps: seq<Checkpoint>, i: nat)
    requires i < |cps|
  {
    && cps[i].prevHash == (if i == 0 then GENESIS else cps[i - 1].entryHash)
    && cps[i].entryHash == sha(cps[i].prevHash + cps[i].entryDigest)
  }

  predicate CountOk(cps: seq<Checkpoint>, i: nat)
    requires i < |cps|
  {
    i > 0 ==> cps[i - 1].entries <= cps[i].entries
  }

  /** What is wrong with a witness: the first of its faults in the order in which they are looked for. */
  predicate IsFault(sha: Sha, valid: SignatureCheck, tenant: string, cps: seq<Checkpoint>, k: nat, d: Detail)
    requires k < |cps|
  {
    var c := cps[k];
    if !DigestOk(sha, tenant, c) then d == Rewritten(c.id)
    else if !SignatureOk(valid, c) then d == BadSignature(c.id)
    else if !LinkOk(sha, cps, k) then d == BrokenWitnessChain(c.id)
    else !CountOk(cps, k) && d == FewerEntries(c.id, cps[k - 1].id)
  }

  /** It is the first witness with a fault. */
  ghost predicate FirstFault(sha: Sha, valid: SignatureCheck, tenant: string, cps: seq<Checkpoint>, k: nat, d: Detail) {
    && k < |cps| && (forall i :: 0 <= i < k ==> WitnessOk(sha, valid, tenant, cps, i))
    && IsFault(sha, valid, tenant, cps, k, d)
  }

  lemma StepIsExact(sha: Sha, valid: SignatureCheck, tenant: string, cps: seq<Checkpoint>)
    requires cps != []
    ensures var k := |cps| - 1;
            var fault := StepFault(sha, valid, tenant, cps[..k], cps[k]);
            if fault.None? then WitnessOk(sha, valid, tenant, cps, k)
            else IsFault(sha, valid, tenant, cps, k, fault.value) && !WitnessOk(sha, valid, tenant, cps, k)
  {
    hide ClaimText;
  }

  /** The witnesses agree among themselves exactly if each of them is in order; otherwise the answer names the first one
      that is not, and what is wrong with it. */
  lemma {:induction false} WitnessesPassIff(sha: Sha, valid: SignatureCheck, tenant: string, cps: seq<Checkpoint>)
    ensures WitnessFault(sha, valid, tenant, cps).None? <==>
              forall i :: 0 <= i < |cps| ==> WitnessOk(sha, valid, tenant, cps, i)
    ensures WitnessFault(sha, valid, tenant, cps).Some? ==>
              exists k :: FirstFault(sha, valid, tenant, cps, k, WitnessFault(sha, valid, tenant, cps).value)
  {
    if cps != [] {
      hide StepFault, WitnessOk, IsFault;
      var front, k := cps[..|cps| - 1], |cps| - 1;
      WitnessesPassIff(sha, valid, tenant, front);
      StepIsExact(sha, valid, tenant, cps);
      forall i | 0 <= i < k
        ensures WitnessOk(sha, valid, tenant, cps, i) <==> WitnessOk(sha, valid, tenant, front, i)
      {
        SameFront(sha, valid, tenant, cps, i, Rewritten(0));
      }
      if WitnessFault(sha, valid, tenant, front).Some? {
        var d := WitnessFault(sha, valid, tenant, front).value;
        var j :| FirstFault(sha, valid, tenant, front, j, d);
        SameFront(sha, valid, tenant, cps, j, d);
        assert FirstFault(sha, valid, tenant, cps, j, d);
        FaultIsNotOk(sha, valid, tenant, cps, j, d);
      } else if WitnessFault(sha, valid, tenant, cps).Some? {
        assert FirstFault(sha, valid, tenant, cps, k, WitnessFault(sha, valid, tenant, cps).value);
      }
    }
  }

  lemma SameFront(sha: Sha, valid: SignatureCheck, tenant: string, cps: seq<Checkpoint>, i: nat, d: Detail)
    requires i + 1 < |cps|
    ensures var front := cps[..|cps| - 1];
            && (WitnessOk(sha, valid, tenant, cps, i) <==> WitnessOk(sha, valid, tenant, front, i))
            && (IsFault(sha, valid, tenant, cps, i, d) <==> IsFault(sha, valid, tenant, front, i, d))
  {
    hide DigestOk, SignatureOk;
  }

  lemma FaultIsNotOk(sha: Sha, valid: SignatureCheck, tenant: string, cps: seq<Checkpoint>, k: nat, d: Detail)
    requires k < |cps| && IsFault(sha, valid, tenant, cps, k, d)
    ensures !WitnessOk(sha, valid, tenant, cps, k)
  {
    hide DigestOk, SignatureOk, LinkOk, CountOk;
  }

  /** The texts that are hashed for the witnesses. */
  ghost function WitnessTexts(tenant: string, cps: seq<Checkpoint>): set<string> {
    (set c <- cps :: ClaimText(ClaimOf(tenant, c))) + (set c <- cps :: c.prevHash + c.entryDigest)
  }

  /** Two witnesses with the same chained hash make the same claim after the same witness. */
  lemma SameHashSameWitness(sha: Sha, valid: SignatureCheck, tenant: string, a: seq<Checkpoint>, i: nat,
                            b: seq<Checkpoint>, j: nat, texts: set<string>)
    requires Digests(sha) && NoCollision(sha, texts) && i < |a| && j < |b|
    requires WitnessTexts(tenant, a) <= texts && WitnessTexts(tenant, b) <= texts
    requires WitnessOk(sha, valid, tenant, a, i) && WitnessOk(sha, valid, tenant, b, j)
    requires a[i].entryHash == b[j].entryHash
    ensures ClaimOf(tenant, a[i]) == ClaimOf(tenant, b[j]) && a[i].prevHash == b[j].prevHash
  {
    var c, d := a[i], b[j];
    assert c in a && d in b;
    assert c.prevHash + c.entryDigest in texts && d.prevHash + d.entryDigest in texts;
    assert |c.entryDigest| == 64 == |d.entryDigest|;
    SameSuffix(c.prevHash, c.entryDigest, d.prevHash, d.entryDigest);
    assert ClaimText(ClaimOf(tenant, c)) in texts && ClaimText(ClaimOf(tenant, d)) in texts;
    ClaimInjective(ClaimOf(tenant, c), ClaimOf(tenant, d));
  }

  lemma SameSuffix(p: string, x: string, q: string, y: string)
    requires p + x == q + y && |x| == |y|
    ensures p == q && x == y
  {
    assert |p + x| == |q + y|;
    assert (p + x)[..|p|] == p && (q + y)[..|q|] == q && (p + x)[|p|..] == x && (q + y)[|q|..] == y;
  }

  /** The witnesses bind each other: two lists that both pass and end in the same chained hash make the same claims, one
      by one and in the same order. */
  lemma {:induction false} WitnessListBinding(sha: Sha, valid: SignatureCheck, tenant: string, a: seq<Checkpoint>,
                                              b: seq<Checkpoint>, texts: set<string>)
    requires Digests(sha) && NoCollision(sha, texts)
    requires WitnessTexts(tenant, a) <= texts && WitnessTexts(tenant, b) <= texts
    requires WitnessFault(sha, valid, tenant, a).None? && WitnessFault(sha, valid, tenant, b).None?
    requires WitnessTip(a) == WitnessTip(b)
    ensures |a| == |b|
    ensures forall i :: 0 <= i < |a| ==> ClaimOf(tenant, a[i]) == ClaimOf(tenant, b[i])
    decreases |a|
  {
    hide WitnessFault, WitnessOk, NoCollision, WitnessTexts;
    WitnessesPassIff(sha, valid, tenant, a);
    WitnessesPassIff(sha, valid, tenant, b);
    TipIsNoGenesis(sha, valid, tenant, a);
    TipIsNoGenesis(sha, valid, tenant, b);
    if a != [] && b != [] {
      var front, front' := a[..|a| - 1], b[..|b| - 1];
      SameHashSameWitness(sha, valid, tenant, a, |a| - 1, b, |b| - 1, texts);
      WitnessFront(sha, valid, tenant, a);
      WitnessFront(sha, valid, tenant, b);
      WitnessListBinding(sha, valid, tenant, front, front', texts);
      forall i | 0 <= i < |a| ensures ClaimOf(tenant, a[i]) == ClaimOf(tenant, b[i]) {
        if i < |front| { assert a[i] == front[i] && b[i] == front'[i]; }
      }
    }
  }

  lemma WitnessFront(sha: Sha, valid: SignatureCheck, tenant: string, cps: seq<Checkpoint>)
    requires cps != [] && WitnessFault(sha, valid, tenant, cps).None?
    ensures var front := cps[..|cps| - 1];
            && WitnessFault(sha, valid, tenant, front).None? && WitnessTip(front) == cps[|cps| - 1].prevHash
            && WitnessTexts(tenant, front) <= WitnessTexts(tenant, cps)
  {
    hide ClaimText, ClaimOf;
    assert forall c <- cps[..|cps| - 1] :: c in cps;
  }

  lemma TipIsNoGenesis(sha: Sha, valid: SignatureCheck, tenant: string, cps: seq<Checkpoint>)
    requires Digests(sha) && forall i :: 0 <= i < |cps| ==> WitnessOk(sha, valid, tenant, cps, i)
    ensures cps != [] ==> WitnessTip(cps) != GENESIS
  {
    hide ClaimText, DigestOk, SignatureOk;
    if cps != [] {
      assert WitnessOk(sha, valid, tenant, cps, |cps| - 1);
      assert |WitnessTip(cps)| == 64 && |GENESIS| == 7;
    }
  }

  /** Take any witnesses away before the last, put others in their place or in another order: verification fails. */
  lemma OtherWitnessesFail(sha: Sha, valid: SignatureCheck, tenant: string, cps: seq<Checkpoint>,
                           other: seq<Checkpoint>, rows: seq<Row>, texts: set<string>)
    requires Digests(sha) && NoCollision(sha, texts)
    requires WitnessTexts(tenant, cps) <= texts && WitnessTexts(tenant, other) <= texts
    requires cps != [] && other != [] && cps[|cps| - 1] == other[|other| - 1]
    requires WitnessFault(sha, valid, tenant, cps).None?
    requires |other| != |cps| || exists i :: 0 <= i < |cps| && ClaimOf(tenant, other[i]) != ClaimOf(tenant, cps[i])
    ensures !Verdict(sha, valid, tenant, other, OfTenant(rows, tenant)).ok
  {
    if WitnessFault(sha, valid, tenant, other).None? {
      WitnessListBinding(sha, valid, tenant, other, cps, texts);
      assert false;
    }
  }

  // ---------------------------------------------------------------- what a witness pins

  /** The claim is the state of a verified chain: these rows, all of them, in this order. */
  predicate Attests(sha: Sha, claim: Claim, own: seq<Row>) {
    && (forall r <- own :: r.entry.tenant == claim.tenant)
    && Increasing(own)
    && Intact(sha, own)
    && claim.entries == |own|
    && claim.lastAuditId == (if own == [] then None else Some(own[|own| - 1].id))
    && claim.lastEntryHash == Tip(Links(own))
  }

  /** One use of the signing key: the claim, and the journal of that moment. */
  datatype Signing = Signing(claim: Claim, own: seq<Row>)

  /** The journal's key is trusted for one witness: only attested claims were signed, and if the signature that the
      witness presents verifies, its digest is one of those that were signed. */
  ghost predicate Trusted(sha: Sha, valid: SignatureCheck, c: Checkpoint, signings: seq<Signing>) {
    && (forall s <- signings :: Attests(sha, s.claim, s.own))
    && (valid(c.publicKey, c.entryDigest, c.signature) ==>
          exists s <- signings :: EntryDigest(sha, s.claim) == c.entryDigest)
  }

  /** No two of the texts hashed for these chains and claims collide. */
  ghost predicate Separates(sha: Sha, texts: set<string>, claim: Claim, own: seq<Row>, signings: seq<Signing>) {
    && NoCollision(sha, texts)
    && ClaimText(claim) in texts
    && Hashed(Links(own)) <= texts
    && (forall s <- signings :: ClaimText(s.claim) in texts && Hashed(Links(s.own)) <= texts)
  }

  lemma LastWitnessIsSound(sha: Sha, valid: SignatureCheck, tenant: string, cps: seq<Checkpoint>)
    requires cps != [] && WitnessFault(sha, valid, tenant, cps).None?
    ensures var c := cps[|cps| - 1];
            c.entryDigest == EntryDigest(sha, ClaimOf(tenant, c)) && SignatureValid(valid, c)
  {
  }

  /** A witness that verifies under the trusted key repeats a claim that was signed. */
  lemma SignedClaim(sha: Sha, valid: SignatureCheck, tenant: string, cps: seq<Checkpoint>, own: seq<Row>,
                    signings: seq<Signing>, texts: set<string>) returns (s: Signing)
    requires cps != [] && WitnessFault(sha, valid, tenant, cps).None?
    requires Trusted(sha, valid, cps[|cps| - 1], signings)
    requires Separates(sha, texts, ClaimOf(tenant, cps[|cps| - 1]), own, signings)
    ensures s in signings && s.claim == ClaimOf(tenant, cps[|cps| - 1]) && Attests(sha, s.claim, s.own)
  {
    var c := cps[|cps| - 1];
    LastWitnessIsSound(sha, valid, tenant, cps);
    assert valid(c.publicKey, c.entryDigest, c.signature);
    s :| s in signings && EntryDigest(sha, s.claim) == c.entryDigest;
    ClaimInjective(s.claim, ClaimOf(tenant, c));
  }

  lemma {:induction false} HashAtPosition(own: seq<Row>, id: int) returns (k: nat)
    requires HashAt(own, id).Some?
    ensures k < |own| && own[k].id == id && own[k].entryHash == HashAt(own, id).value
  {
    k := |own| - 1;
    if own[k].id != id { k := HashAtPosition(own[..|own| - 1], id); }
  }

  lemma LinksAreJson(own: seq<Row>)
    ensures JsonBodies(Links(own))
  {
    forall l <- Links(own) ensures l.body != "" && l.body[0] == '{' {
      var i :| 0 <= i < |own| && l == ToLink(own[i]);
    }
  }

  /** Two chains of rows with the same links carry the same entries. */
  lemma LinksGiveEntries(a: seq<Row>, b: seq<Row>)
    requires Links(a) == Links(b)
    ensures |a| == |b| && forall i :: 0 <= i < |a| ==> a[i].entry == b[i].entry && a[i].entryHash == b[i].entryHash
  {
    assert |Links(a)| == |a| && |Links(b)| == |b|;
    forall i | 0 <= i < |a| ensures a[i].entry == b[i].entry && a[i].entryHash == b[i].entryHash {
      assert ToLink(a[i]) == Links(a)[i] == Links(b)[i] == ToLink(b[i]);
      PayloadInjective(a[i].entry, b[i].entry);
    }
  }

  /** The journal `own` still starts with the attested rows, entry for entry, and the attested id is there. */
  predicate Pins(claim: Claim, attested: seq<Row>, own: seq<Row>) {
    && |attested| == claim.entries <= |own|
    && (forall i :: 0 <= i < |attested| ==>
          own[i].entry == attested[i].entry && own[i].entryHash == attested[i].entryHash)
    && (attested != [] ==> claim.lastAuditId == Some(own[|attested| - 1].id))
  }

  lemma FirstLinks(own: seq<Row>, n: nat)
    requires 0 < n <= |own|
    ensures Links(own[..n]) == Links(own)[..n] && Tip(Links(own[..n])) == own[n - 1].entryHash
    ensures Hashed(Links(own[..n])) <= Hashed(Links(own))
  {
    assert forall l <- Links(own)[..n] :: l in Links(own);
  }

  lemma PrefixLinks(sha: Sha, tenant: string, own: seq<Row>, k: nat)
    requires Intact(sha, own) && k < |own| && forall r <- own :: r.entry.tenant == tenant
    ensures var prefix := Links(own[..k + 1]);
            Chained(sha, prefix) && Hashed(prefix) <= Hashed(Links(own)) && Tip(prefix) == own[k].entryHash
  {
    hide Intact, Tip, Hashed, Chained;
    IntactIsChained(sha, own, tenant);
    PrefixChained(sha, Links(own), k + 1);
    FirstLinks(own, k + 1);
  }

  lemma PrefixPinned(sha: Sha, claim: Claim, attested: seq<Row>, own: seq<Row>, k: nat, texts: set<string>)
    requires Digests(sha) && NoCollision(sha, texts) && Hashed(Links(own)) <= texts && Hashed(Links(attested)) <= texts
    requires Attests(sha, claim, attested) && attested != []
    requires Intact(sha, own) && forall r <- own :: r.entry.tenant == claim.tenant
    requires k < |own| && claim.lastAuditId == Some(own[k].id) && own[k].entryHash == claim.lastEntryHash
    ensures Pins(claim, attested, own)
  {
    var prefix := own[..k + 1];
    PrefixLinks(sha, claim.tenant, own, k);
    IntactIsChained(sha, attested, claim.tenant);
    LinksAreJson(prefix);
    LinksAreJson(attested);
    Binding(sha, Links(prefix), Links(attested), texts);
    LinksGiveEntries(prefix, attested);
    assert forall i :: 0 <= i <= k ==> own[i] == prefix[i];
  }

  /** Witness binding.  When the chain verifies and the witnesses verify, and the signature of the last witness is no
      forgery, the journal starts with exactly the entries that were signed, and the id that the witness
      names is the id of the last of them. */
  lemma WitnessBinding(sha: Sha, valid: SignatureCheck, tenant: string, cps: seq<Checkpoint>, rows: seq<Row>,
                       signings: seq<Signing>, texts: set<string>) returns (s: Signing)
    requires Digests(sha) && cps != []
    requires Trusted(sha, valid, cps[|cps| - 1], signings)
    requires Separates(sha, texts, ClaimOf(tenant, cps[|cps| - 1]), OfTenant(rows, tenant), signings)
    requires Intact(sha, OfTenant(rows, tenant)) && Verdict(sha, valid, tenant, cps, OfTenant(rows, tenant)).ok
    ensures s in signings && s.claim == ClaimOf(tenant, cps[|cps| - 1]) && Attests(sha, s.claim, s.own)
    ensures Pins(s.claim, s.own, OfTenant(rows, tenant))
  {
    var own := OfTenant(rows, tenant);
    s := SignedClaim(sha, valid, tenant, cps, own, signings, texts);
    OfTenantProperties(rows, tenant);
    if s.own != [] {
      var k := HashAtPosition(own, s.claim.lastAuditId.value);
      PrefixPinned(sha, s.claim, s.own, own, k, texts);
    }
  }

  /** Any journal that no longer starts with the signed entries makes one of the two checks fail. */
  lemma TamperingIsSeen(sha: Sha, valid: SignatureCheck, tenant: string, cps: seq<Checkpoint>, rows: seq<Row>,
                        signings: seq<Signing>, texts: set<string>)
    requires Digests(sha) && cps != []
    requires Trusted(sha, valid, cps[|cps| - 1], signings)
    requires Separates(sha, texts, ClaimOf(tenant, cps[|cps| - 1]), OfTenant(rows, tenant), signings)
    requires forall s <- signings ::
               s.claim == ClaimOf(tenant, cps[|cps| - 1]) ==> !Pins(s.claim, s.own, OfTenant(rows, tenant))
    ensures !Intact(sha, OfTenant(rows, tenant)) || !Verdict(sha, valid, tenant, cps, OfTenant(rows, tenant)).ok
  {
    if Intact(sha, OfTenant(rows, tenant)) && Verdict(sha, valid, tenant, cps, OfTenant(rows, tenant)).ok {
      var s := WitnessBinding(sha, valid, tenant, cps, rows, signings, texts);
    }
  }

  // ---------------------------------------------------------------- removed entries

  function IdsUpTo(own: seq<Row>, upTo: int): set<int> { set r | r in own && r.id <= upTo :: r.id }

  lemma IdsStep(front: seq<Row>, last: Row, upTo: int)
    requires Increasing(front + [last])
    ensures IdsUpTo(front + [last], upTo) == IdsUpTo(front, upTo) + (if last.id <= upTo then {last.id} else {})
    ensures last.id !in IdsUpTo(front, upTo)
  {
    var own := front + [last];
    forall r | r in front ensures r.id < last.id {
      var i :| 0 <= i < |front| && front[i] == r;
      assert own[i].id < own[|front|].id;
    }
    forall r | r in own ensures r in front || r == last {}
    forall r | r in front ensures r in own {
      var i :| 0 <= i < |front| && front[i] == r;
      assert own[i] == r;
    }
    assert own[|front|] == last;
  }

  lemma {:induction false} CountIsCardinality(own: seq<Row>, upTo: int)
    requires Increasing(own)
    ensures CountUpTo(own, upTo) == |IdsUpTo(own, upTo)|
  {
    if own == [] {
      assert IdsUpTo(own, upTo) == {};
    } else {
      var front, last := own[..|own| - 1], own[|own| - 1];
      assert own == front + [last];
      CountIsCardinality(front, upTo);
      IdsStep(front, last, upTo);
    }
  }

  lemma CardinalityOfSubset(a: set<int>, b: set<int>)
    requires a < b
    ensures |a| < |b|
  {
    assert b == a + (b - a);
    assert b - a == {} ==> a == b;
  }

  /** What verification answers once the witnesses pass, on the journal itself: `truncated` exactly if fewer rows than
      attested stand up to the attested id, or none has that id; ok exactly if enough do, and the one with that id still
      has the attested hash. */
  lemma VerdictIff(sha: Sha, valid: SignatureCheck, tenant: string, cps: seq<Checkpoint>, own: seq<Row>)
    requires cps != [] && WitnessFault(sha, valid, tenant, cps).None? && cps[|cps| - 1].lastAuditId.Some?
    requires Increasing(own)
    ensures var c, r := cps[|cps| - 1], Verdict(sha, valid, tenant, cps, own);
            var id := c.lastAuditId.value;
            var present := |IdsUpTo(own, id)|;
            && r.checkpoints == |cps|
            && (r.ok <==> present >= c.entries && exists row <- own :: row.id == id && row.entryHash == c.lastEntryHash)
            && (r.truncated <==> present < c.entries || forall row <- own :: row.id != id)
            && r.detail == (if r.ok then None
                            else if present < c.entries then Some(MissingEntries(c.entries - present, c.id))
                            else if r.truncated then Some(EntryGone(id, c.id))
                            else Some(HashDiffers(id, c.id)))
  {
    hide WitnessFault, IdsUpTo;
    var id := cps[|cps| - 1].lastAuditId.value;
    CountIsCardinality(own, id);
    HashAtIff(own, id);
    hide CountUpTo, HashAt;
  }

  /** In the other cases: no witness, or a last one of an empty chain, pins nothing; a fault of the witnesses is the
      answer whatever the journal holds. */
  lemma VerdictOtherwise(sha: Sha, valid: SignatureCheck, tenant: string, cps: seq<Checkpoint>, own: seq<Row>)
    ensures var r, fault := Verdict(sha, valid, tenant, cps, own), WitnessFault(sha, valid, tenant, cps);
            && r.checkpoints == |cps|
            && (cps == [] || (fault.None? && cps[|cps| - 1].lastAuditId.None?) ==>
                  r.ok && !r.truncated && r.detail == None)
            && (fault.Some? ==> !r.ok && !r.truncated && r.detail == fault)
  {
  }

  lemma {:induction false} HashAtIff(own: seq<Row>, id: int)
    requires Increasing(own)
    ensures HashAt(own, id).None? <==> forall row <- own :: row.id != id
    ensures forall row <- own :: row.id == id ==> HashAt(own, id) == Some(row.entryHash)
  {
    if own != [] {
      var front, last := own[..|own| - 1], own[|own| - 1];
      HashAtIff(front, id);
      assert own == front + [last];
    }
  }

  /** Remove any attested entries, at the tail, in the middle or all of them, and write as many new ones as
      one likes: the witnesses answer `truncated`, and say how many entries are missing. */
  lemma RemovalIsTruncation(sha: Sha, valid: SignatureCheck, tenant: string, cps: seq<Checkpoint>,
                            attested: seq<Row>, own: seq<Row>)
    requires cps != [] && WitnessFault(sha, valid, tenant, cps).None?
    requires Attests(sha, ClaimOf(tenant, cps[|cps| - 1]), attested) && attested != [] && Increasing(own)
    requires var upTo := attested[|attested| - 1].id; IdsUpTo(own, upTo) < IdsUpTo(attested, upTo)
    ensures var c := cps[|cps| - 1];
            var gone := |attested| - CountUpTo(own, attested[|attested| - 1].id);
            && gone > 0
            && Verdict(sha, valid, tenant, cps, own)
               == Verification(|cps|, false, true, Some(MissingEntries(gone, c.id)))
  {
    hide CountUpTo, HashAt, WitnessFault, IdsUpTo;
    var upTo := attested[|attested| - 1].id;
    CountIsCardinality(own, upTo);
    CountIsCardinality(attested, upTo);
    CardinalityOfSubset(IdsUpTo(own, upTo), IdsUpTo(attested, upTo));
    CountOfAll(attested, upTo);
    assert Verdict(sha, valid, tenant, cps, own) == Confront(cps, CountUpTo(own, upTo), HashAt(own, upTo));
  }

  lemma {:induction false} CountOfAll(own: seq<Row>, upTo: int)
    requires forall r <- own :: r.id <= upTo
    ensures CountUpTo(own, upTo) == |own|
  {
    if own != [] { CountOfAll(own[..|own| - 1], upTo); }
  }
}
