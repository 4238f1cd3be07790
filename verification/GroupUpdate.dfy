/**
 Acceptance of group updates (cyfs-base-meta/src/group.rs): a new version of a group needs the
 signatures of a strict majority of the people who administered the previous version, and of
 everyone it adds. Hashes and signature checks are arbitrary functions.
 */
module GroupUpdate {

  import opened Options

  /** The type code of an object id tells people from other objects. */
  datatype ObjectId = People(n: nat) | Other(n: nat)

  type u64 = n: nat | n < 0x1_0000_0000_0000_0000

  type Key = nat

  type Digest = nat

  datatype GroupMember = GroupMember(id: ObjectId, title: string)

  /** A simple group names its admins in the description, an organisation in the body. */
  datatype Desc =
    | SimpleGroup(unique: nat, founder: Option<ObjectId>, admins: map<ObjectId, GroupMember>)
    | Org(unique: nat, founder: Option<ObjectId>)

  datatype Body = Body(
    version: u64,
    prevShell: Option<Digest>,
    members: map<ObjectId, GroupMember>,
    orgAdmins: map<ObjectId, GroupMember>)

  datatype Signature = Signature(signer: Option<ObjectId>, value: nat)

  datatype Group = Group(desc: Desc, body: Body, descSigns: seq<Signature>, bodySigns: seq<Signature>)

  datatype Content = Content(desc: Desc, body: Body)

  function ContentOf(g: Group): Content {
    Content(g.desc, g.body)
  }

  /** What the check takes from outside: hashes, the signature check, and the people it can look up. */
  datatype World = World(
    groupId: Desc -> Digest,
    shellId: (Desc, Body) -> Digest,
    descHash: Desc -> Digest,
    bodyHash: Body -> Digest,
    verify: (Key, Digest, Signature) -> bool,
    people: map<ObjectId, Key>)

  datatype Error = Failed | Unmatch | InvalidSignature | NotFound

  datatype Result = Ok | Err(error: Error)

  function Admins(g: Group): map<ObjectId, GroupMember> {
    match g.desc
    case SimpleGroup(_, _, admins) => admins
    case Org(_, _) => g.body.orgAdmins
  }

  function PeopleIn(m: map<ObjectId, GroupMember>): set<ObjectId> {
    set p | p in m && p.People?
  }

  /** verify_signature: only the first signature that names the signer counts. */
  function VerifySignature(w: World, signs: seq<Signature>, data: Digest, key: Key, signer: ObjectId): Result {
    if signs == [] then Err(NotFound)
    else if signs[0].signer == Some(signer) then
      if w.verify(key, data, signs[0]) then Ok else Err(InvalidSignature)
    else VerifySignature(w, signs[1..], data, key, signer)
  }

  function VerifyGroupSignature(w: World, g: Group, person: ObjectId): Result {
    if person !in w.people then Err(NotFound)
    else
      var key := w.people[person];
      var r := VerifySignature(w, g.descSigns, w.descHash(g.desc), key, person);
      if r != Ok then r else VerifySignature(w, g.bodySigns, w.bodyHash(g.body), key, person)
  }

  predicate Signed(w: World, g: Group, person: ObjectId) {
    VerifyGroupSignature(w, g, person) == Ok
  }

  /** The check of the link to the latest version; there is none before the first version. */
  function CheckLink(w: World, g: Group, latest: Option<Group>): Result {
    match latest
    case Some(last) =>
      if w.groupId(g.desc) != w.groupId(last.desc) then Err(Unmatch)
      else if g.body.version != (last.body.version + 1) % 0x1_0000_0000_0000_0000
              || g.body.prevShell != Some(w.shellId(last.desc, last.body)) then Err(Unmatch)
      else Ok
    case None =>
      if g.body.prevShell.Some? then Err(Unmatch)
      else if g.desc.founder.Some? && !exists p | p in Admins(g) :: Admins(g)[p].id == g.desc.founder.value then Err(Failed)
      else Ok
  }

  function LastAdmins(latest: Option<Group>): set<ObjectId> {
    if latest.Some? then PeopleIn(Admins(latest.value)) else {}
  }

  function LastMembers(latest: Option<Group>): set<ObjectId> {
    if latest.Some? then PeopleIn(latest.value.body.members) else {}
  }

  function Signers(w: World, g: Group, people: set<ObjectId>): set<ObjectId> {
    set p | p in people && Signed(w, g, p)
  }

  function IsUpdateValid(w: World, g: Group, latest: Option<Group>): Result {
    if Admins(g) == map[] then Err(Failed)
    else
      var link := CheckLink(w, g, latest);
      if link != Ok then link
      else
        var lastAdmins := LastAdmins(latest);
        var addAdmins := PeopleIn(Admins(g)) - lastAdmins;
        var addMembers := PeopleIn(g.body.members) - LastMembers(latest);
        var additionals := addAdmins + addMembers;
        if |additionals| != |addAdmins| + |addMembers| then Err(Failed)
        else if |lastAdmins| > 0 && |Signers(w, g, lastAdmins)| <= |lastAdmins| / 2 then Err(InvalidSignature)
        else if exists p | p in additionals :: !Signed(w, g, p) then Err(InvalidSignature)
        else Ok
  }

  // ----- signatures -----

  /** The check of one signature, as a predicate. */
  predicate Passes(w: World, key: Key, data: Digest, sign: Signature) {
    w.verify(key, data, sign)
  }

  /** The first signature that names the person passes the check with that key. */
  ghost predicate FirstPasses(w: World, signs: seq<Signature>, data: Digest, key: Key, p: ObjectId) {
    exists i | 0 <= i < |signs| ::
      && signs[i].signer == Some(p)
      && (forall j | 0 <= j < i :: signs[j].signer != Some(p))
      && Passes(w, key, data, signs[i])
  }

  lemma {:induction false} FirstPassesStep(w: World, signs: seq<Signature>, data: Digest, key: Key, p: ObjectId)
    requires signs != []
    ensures FirstPasses(w, signs, data, key, p) <==>
            if signs[0].signer == Some(p) then Passes(w, key, data, signs[0]) else FirstPasses(w, signs[1..], data, key, p)
  {
    hide Passes;
    if signs[0].signer != Some(p) {
      if i :| 0 <= i < |signs| && signs[i].signer == Some(p) && (forall j | 0 <= j < i :: signs[j].signer != Some(p))
              && Passes(w, key, data, signs[i]) {
        assert signs[1..][i - 1] == signs[i];
        assert forall j | 0 <= j < i - 1 :: signs[1..][j] == signs[j + 1];
      }
      if i :| 0 <= i < |signs[1..]| && signs[1..][i].signer == Some(p)
              && (forall j | 0 <= j < i :: signs[1..][j].signer != Some(p)) && Passes(w, key, data, signs[1..][i]) {
        assert signs[i + 1] == signs[1..][i];
        assert forall j | 1 <= j < i + 1 :: signs[j] == signs[1..][j - 1];
      }
    }
  }

  /** A signature counts exactly if it is the person's first and passes; none at all is a different refusal. */
  lemma {:induction false} VerifySignatureExactly(w: World, signs: seq<Signature>, data: Digest, key: Key, p: ObjectId)
    ensures VerifySignature(w, signs, data, key, p) == Ok <==> FirstPasses(w, signs, data, key, p)
    ensures VerifySignature(w, signs, data, key, p) == Err(NotFound) <==> forall i | 0 <= i < |signs| :: signs[i].signer != Some(p)
    decreases signs
  {
    hide FirstPasses;
    if signs == [] {
      NoSignature(w, data, key, p);
    } else {
      FirstPassesStep(w, signs, data, key, p);
      if signs[0].signer != Some(p) {
        VerifySignatureExactly(w, signs[1..], data, key, p);
        assert forall i | 0 < i < |signs| :: signs[i] == signs[1..][i - 1];
      }
    }
  }

  lemma {:induction false} NoSignature(w: World, data: Digest, key: Key, p: ObjectId)
    ensures !FirstPasses(w, [], data, key, p)
  {
  }

  /** A person has signed exactly if they can be looked up and their first signatures of description and body pass with their key. */
  lemma {:induction false} SignedExactly(w: World, g: Group, p: ObjectId)
    ensures Signed(w, g, p) <==>
            && p in w.people
            && FirstPasses(w, g.descSigns, w.descHash(g.desc), w.people[p], p)
            && FirstPasses(w, g.bodySigns, w.bodyHash(g.body), w.people[p], p)
  {
    hide VerifySignature, FirstPasses;
    if p in w.people {
      VerifySignatureExactly(w, g.descSigns, w.descHash(g.desc), w.people[p], p);
      VerifySignatureExactly(w, g.bodySigns, w.bodyHash(g.body), w.people[p], p);
    }
  }

  // ----- histories -----

  /** A history of accepted versions, the first one accepted with no predecessor. */
  ghost predicate Accepted(w: World, h: seq<Group>) {
    && h != []
    && IsUpdateValid(w, h[0], None) == Ok
    && forall i | 0 < i < |h| :: IsUpdateValid(w, h[i], Some(h[i - 1])) == Ok
  }

  function Contents(h: seq<Group>): seq<Content> {
    seq(|h|, i requires 0 <= i < |h| => ContentOf(h[i]))
  }

  /** What an accepted update guarantees, and what makes an update accepted. */
  lemma {:induction false} AcceptedExactly(w: World, g: Group, last: Group)
    ensures IsUpdateValid(w, g, Some(last)) == Ok <==>
            && Admins(g) != map[]
            && w.groupId(g.desc) == w.groupId(last.desc)
            && g.body.version == (last.body.version + 1) % 0x1_0000_0000_0000_0000
            && g.body.prevShell == Some(w.shellId(last.desc, last.body))
            && (PeopleIn(Admins(g)) - PeopleIn(Admins(last))) !! (PeopleIn(g.body.members) - PeopleIn(last.body.members))
            && (PeopleIn(Admins(last)) != {} ==>
                  2 * |Signers(w, g, PeopleIn(Admins(last)))| > |PeopleIn(Admins(last))|)
            && (forall p | p in PeopleIn(Admins(g)) - PeopleIn(Admins(last)) :: Signed(w, g, p))
            && (forall p | p in PeopleIn(g.body.members) - PeopleIn(last.body.members) :: Signed(w, g, p))
  {
    hide Signed, Admins, PeopleIn, Signers;
    var a := PeopleIn(Admins(g)) - PeopleIn(Admins(last));
    var m := PeopleIn(g.body.members) - PeopleIn(last.body.members);
    UnionSize(a, m);
  }

  /** The same for a first version. */
  lemma {:induction false} AcceptedFirstExactly(w: World, g: Group)
    ensures IsUpdateValid(w, g, None) == Ok <==>
            && Admins(g) != map[]
            && g.body.prevShell == None
            && FounderAdministers(g)
            && PeopleIn(Admins(g)) !! PeopleIn(g.body.members)
            && (forall p | p in PeopleIn(Admins(g)) :: Signed(w, g, p))
            && (forall p | p in PeopleIn(g.body.members) :: Signed(w, g, p))
  {
    hide Signed, Admins, PeopleIn;
    var a, m := PeopleIn(Admins(g)), PeopleIn(g.body.members);
    assert a - {} == a && m - {} == m;
    UnionSize(a, m);
  }

  /** The version is the next after the latest, or a first one where there is no latest. */
  predicate Follows(w: World, g: Group, latest: Option<Group>) {
    if latest.None? then g.body.prevShell == None
    else
      && w.groupId(g.desc) == w.groupId(latest.value.desc)
      && g.body.version == (latest.value.body.version + 1) % 0x1_0000_0000_0000_0000
      && g.body.prevShell == Some(w.shellId(latest.value.desc, latest.value.body))
  }

  predicate FounderAdministers(g: Group) {
    g.desc.founder.Some? ==> exists p | p in Admins(g) :: Admins(g)[p].id == g.desc.founder.value
  }

  /** Which refusal: a broken link or an unknown version is Unmatch, missing signatures InvalidSignature, all else Failed. */
  lemma {:induction false} RefusedExactly(w: World, g: Group, latest: Option<Group>)
    ensures var r := IsUpdateValid(w, g, latest);
            && (r == Err(Unmatch) <==> Admins(g) != map[] && !Follows(w, g, latest))
            && (r == Err(InvalidSignature) <==>
                  && Admins(g) != map[]
                  && Follows(w, g, latest)
                  && (latest.None? ==> FounderAdministers(g))
                  && (PeopleIn(Admins(g)) - LastAdmins(latest)) !! (PeopleIn(g.body.members) - LastMembers(latest))
                  && (|| (LastAdmins(latest) != {} && 2 * |Signers(w, g, LastAdmins(latest))| <= |LastAdmins(latest)|)
                      || (exists p | p in PeopleIn(Admins(g)) - LastAdmins(latest) :: !Signed(w, g, p))
                      || (exists p | p in PeopleIn(g.body.members) - LastMembers(latest) :: !Signed(w, g, p))))
            && r != Err(NotFound)
  {
    hide Signed, Admins, PeopleIn, Signers, LastAdmins, LastMembers;
    var a := PeopleIn(Admins(g)) - LastAdmins(latest);
    var m := PeopleIn(g.body.members) - LastMembers(latest);
    UnionSize(a, m);
    assert (exists p | p in a + m :: !Signed(w, g, p)) <==> (exists p | p in a :: !Signed(w, g, p)) || (exists p | p in m :: !Signed(w, g, p));
  }

  /** If no signature passes under the keys of half of the last admins, no successor is accepted. */
  lemma {:induction false} HalfSilentRefused(w: World, last: Group, g: Group, silent: set<ObjectId>)
    requires silent <= PeopleIn(Admins(last)) && silent != {} && 2 * |silent| >= |PeopleIn(Admins(last))|
    requires forall p, data, sign | p in silent && p in w.people :: !Passes(w, w.people[p], data, sign)
    ensures IsUpdateValid(w, g, Some(last)) != Ok
  {
    hide IsUpdateValid, Signed, PeopleIn, Admins, Passes;
    var admins := PeopleIn(Admins(last));
    AcceptedExactly(w, g, last);
    forall p | p in silent
      ensures !Signed(w, g, p)
    {
      SignedExactly(w, g, p);
    }
    assert Signers(w, g, admins) <= admins - silent;
    SubsetSize(Signers(w, g, admins), admins - silent);
    assert |admins - silent| == |admins| - |silent|;
  }

  lemma {:induction false} UnionSize<T>(a: set<T>, b: set<T>)
    ensures |a + b| == |a| + |b| <==> a !! b
  {
    assert |a + b| + |a * b| == |a| + |b|;
    if a !! b {
      assert a * b == {};
    } else {
      var x :| x in a && x in b;
      assert x in a * b;
    }
  }

  // ----- links -----

  /** Versions rise by one, and each names its predecessor. */
  lemma {:induction false} LinksHold(w: World, h: seq<Group>, i: nat)
    requires Accepted(w, h) && i < |h|
    ensures h[i].body.version == (h[0].body.version + i) % 0x1_0000_0000_0000_0000
    ensures w.groupId(h[i].desc) == w.groupId(h[0].desc)
    ensures h[i].body.prevShell == if i == 0 then None else Some(w.shellId(h[i - 1].desc, h[i - 1].body))
  {
    hide IsUpdateValid, Signers, Signed, Admins, PeopleIn;
    if i == 0 {
      FirstLink(w, h[0]);
    } else {
      LinksHold(w, h, i - 1);
      AcceptedExactly(w, h[i], h[i - 1]);
      NextVersion(h[0].body.version + (i - 1));
    }
  }

  lemma {:induction false} FirstLink(w: World, g: Group)
    requires IsUpdateValid(w, g, None) == Ok
    ensures g.body.prevShell == None
  {
  }

  lemma {:induction false} NextVersion(n: nat)
    ensures (n % 0x1_0000_0000_0000_0000 + 1) % 0x1_0000_0000_0000_0000 == (n + 1) % 0x1_0000_0000_0000_0000
  {
  }

  // ----- agreement -----

  /** Two strict majorities of the same set share a member. */
  lemma {:induction false} QuorumsMeet<T>(all: set<T>, a: set<T>, b: set<T>) returns (x: T)
    requires a <= all && b <= all
    requires 2 * |a| > |all| && 2 * |b| > |all|
    ensures x in a && x in b
  {
    SubsetSize(a + b, all);
    assert |a + b| + |a * b| == |a| + |b|;
    assert a * b != {};
    x :| x in a * b;
  }

  lemma {:induction false} SubsetSize<T>(a: set<T>, b: set<T>)
    requires a <= b
    ensures |a| <= |b|
  {
    assert b == a + (b - a);
  }

  /** No person who administers a version signs two different successors of it. */
  ghost predicate SignsOnce(w: World, h: seq<Group>, w': World, h': seq<Group>) {
    forall i, j, p | 0 < i < |h| && 0 < j < |h'| && p in LastAdmins(Some(h[i - 1])) &&
                     Signed(w, h[i], p) && Signed(w', h'[j], p) && h[i].body.prevShell == h'[j].body.prevShell ::
      ContentOf(h[i]) == ContentOf(h'[j])
  }

  ghost predicate PeopleInCharge(h: seq<Group>) {
    forall g | g in h :: PeopleIn(Admins(g)) != {}
  }

  /** The parts of the world that the two verifiers share: how objects are named. */
  ghost predicate SameNames(w: World, w': World) {
    w.groupId == w'.groupId && w.shellId == w'.shellId
  }

  lemma {:induction false} SameSuccessor(w: World, h: seq<Group>, w': World, h': seq<Group>, i: nat)
    requires SameNames(w, w') && Accepted(w, h) && Accepted(w', h')
    requires SignsOnce(w, h, w', h') && PeopleInCharge(h)
    requires 0 < i < |h| && i < |h'|
    requires ContentOf(h[i - 1]) == ContentOf(h'[i - 1])
    ensures ContentOf(h[i]) == ContentOf(h'[i])
  {
    hide IsUpdateValid, Signed, PeopleIn;
    var last, last' := h[i - 1], h'[i - 1];
    AcceptedExactly(w, h[i], last);
    AcceptedExactly(w', h'[i], last');
    assert last in h;
    var admins := PeopleIn(Admins(last));
    assert admins == PeopleIn(Admins(last'));
    var p := QuorumsMeet(admins, Signers(w, h[i], admins), Signers(w', h'[i], admins));
    assert p in LastAdmins(Some(h[i - 1]));
  }

  /**
   Agreement: two verifiers that start from the same first version, and each accept a history by their own checks,
   hold histories of which one is a prefix of the other.
   */
  lemma {:induction false} Agreement(w: World, h: seq<Group>, w': World, h': seq<Group>)
    requires SameNames(w, w') && Accepted(w, h) && Accepted(w', h')
    requires ContentOf(h[0]) == ContentOf(h'[0])
    requires SignsOnce(w, h, w', h') && PeopleInCharge(h)
    ensures Contents(h) <= Contents(h') || Contents(h') <= Contents(h)
  {
    hide Accepted, SignsOnce, PeopleInCharge, SameNames;
    var n := if |h| <= |h'| then |h| else |h'|;
    forall i | 0 <= i < n
      ensures ContentOf(h[i]) == ContentOf(h'[i])
    {
      AgreesAt(w, h, w', h', i);
    }
  }

  lemma {:induction false} AgreesAt(w: World, h: seq<Group>, w': World, h': seq<Group>, i: nat)
    requires SameNames(w, w') && Accepted(w, h) && Accepted(w', h')
    requires ContentOf(h[0]) == ContentOf(h'[0])
    requires SignsOnce(w, h, w', h') && PeopleInCharge(h)
    requires i < |h| && i < |h'|
    ensures ContentOf(h[i]) == ContentOf(h'[i])
  {
    hide Accepted, SignsOnce, PeopleInCharge, SameNames;
    if i == 0 {
    } else {
      AgreesAt(w, h, w', h', i - 1);
      SameSuccessor(w, h, w', h', i);
    }
  }

  /** A successor of `last` that changes nobody, with the given members besides. */
  function Successor(w: World, last: Group, members: map<ObjectId, GroupMember>): Group {
    last.(body := last.body.(
      version := (last.body.version + 1) % 0x1_0000_0000_0000_0000,
      prevShell := Some(w.shellId(last.desc, last.body)),
      members := members))
  }

  /** Where no person is among the admins nobody is asked: any such successor is accepted. */
  lemma {:induction false} NobodyAsked(w: World, last: Group, members: map<ObjectId, GroupMember>)
    requires Admins(last) != map[] && PeopleIn(Admins(last)) == {} && PeopleIn(members) == {}
    ensures IsUpdateValid(w, Successor(w, last, members), Some(last)) == Ok
  {
    AcceptedExactly(w, Successor(w, last, members), last);
  }

  /** Two accepted successors of different content, with no admin of `last` who signed both. */
  ghost predicate Fork(w: World, last: Group, g: Group, g': Group) {
    && IsUpdateValid(w, g, Some(last)) == Ok
    && IsUpdateValid(w, g', Some(last)) == Ok
    && ContentOf(g) != ContentOf(g')
    && forall p | p in PeopleIn(Admins(last)) :: !(Signed(w, g, p) && Signed(w, g', p))
  }

  /** A version, simple group or organisation, can fork without anyone signing twice exactly when no person is among its admins. */
  lemma {:induction false} ForksExactly(w: World, last: Group)
    requires Admins(last) != map[]
    ensures (exists g, g' :: Fork(w, last, g, g')) <==> PeopleIn(Admins(last)) == {}
  {
    var admins := PeopleIn(Admins(last));
    if admins == {} {
      var member := map[Other(0) := GroupMember(Other(0), "")];
      var g, g' := Successor(w, last, map[]), Successor(w, last, member);
      assert Other(0) in g'.body.members && Other(0) !in g.body.members;
      NobodyAsked(w, last, map[]);
      NobodyAsked(w, last, member);
      assert Fork(w, last, g, g');
    } else {
      forall g, g' | IsUpdateValid(w, g, Some(last)) == Ok && IsUpdateValid(w, g', Some(last)) == Ok
        ensures !Fork(w, last, g, g')
      {
        SharedSigner(w, last, g, g');
      }
    }
  }

  lemma {:induction false} SharedSigner(w: World, last: Group, g: Group, g': Group)
    requires IsUpdateValid(w, g, Some(last)) == Ok && IsUpdateValid(w, g', Some(last)) == Ok
    requires PeopleIn(Admins(last)) != {}
    ensures exists p | p in PeopleIn(Admins(last)) :: Signed(w, g, p) && Signed(w, g', p)
  {
    hide IsUpdateValid, Signed, PeopleIn;
    var admins := PeopleIn(Admins(last));
    AcceptedExactly(w, g, last);
    AcceptedExactly(w, g', last);
    var p := QuorumsMeet(admins, Signers(w, g, admins), Signers(w, g', admins));
  }

  // ----- consent -----

  datatype Role = Admin | Member

  /** The people, and no other objects, among its admins or members. */
  function InRole(g: Group, role: Role): set<ObjectId> {
    var all := if role.Admin? then Admins(g) else g.body.members;
    set p | p in all && p.People?
  }

  /** The version where the unbroken stay of `p` in the role, up to version `i`, began. */
  function StayBegan(h: seq<Group>, role: Role, p: ObjectId, i: nat): (j: nat)
    requires i < |h| && p in InRole(h[i], role)
    ensures j <= i
    ensures forall k | j <= k <= i :: p in InRole(h[k], role)
    ensures j > 0 ==> p !in InRole(h[j - 1], role)
  {
    if i > 0 && p in InRole(h[i - 1], role) then StayBegan(h, role, p, i - 1) else i
  }

  /** Everyone in a role, in every version of every accepted history, signed the version where their stay began. */
  lemma {:induction false} Consent(w: World, h: seq<Group>, role: Role, p: ObjectId, i: nat)
    requires Accepted(w, h) && i < |h| && p in InRole(h[i], role)
    ensures Signed(w, h[StayBegan(h, role, p, i)], p)
  {
    hide Signed, IsUpdateValid, StayBegan;
    var j := StayBegan(h, role, p, i);
    assert p in InRole(h[j], role);
    if j > 0 {
      AcceptedExactly(w, h[j], h[j - 1]);
    } else {
      AcceptedFirstExactly(w, h[0]);
    }
  }
}
