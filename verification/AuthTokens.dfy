/** Delegating access: chains of tokens, how the next link is made, and who signs it. */
module AuthTokens {
  import opened Options
  import opened Tokens
  import opened Wire

  const AUTH_TOKEN_EXPIRATION_TIME: nat := 30 * 24 * 60 * 60 * 1000
  const PUT: int := 1
  const GET: int := 2
  const DELETE: int := 3

  // ---- Making a token ----

  /** What the constructor makes of its parameters; `now` is `Date.now()`. */
  function NewToken(params: Payload, now: int): Token {
    Token(None, Some(params.(
      canDelegate := Some(params.canDelegate == Some(true)),
      expiresAt := if params.expiresAt.Some? then params.expiresAt else Some(now + AUTH_TOKEN_EXPIRATION_TIME))))
  }

  function FullAccess(subject: Option<Bytes>, now: int): Token {
    NewToken(Payload(None, subject, None, None, [GET, PUT, DELETE], None, None), now)
  }

  /** `AuthToken.from`; `None` is the error thrown for a token without a payload. */
  function From(parent: Token, now: int): Option<Token> {
    if parent.payload == None then None
    else
      var p := parent.payload.value;
      Some(NewToken(p.(subject := None, prev := if p.subject.Some? then Some(parent) else None), now))
  }

  /** Addresses are compared by the bytes they encode. */
  predicate IsSigned(t: Token) {
    if t.payload.Some? && t.payload.value.subject.Some?
    then t.signature.Some? && t.signature.value.signer == t.payload.value.subject.value
    else t.signature.Some?
  }

  // ---- The rules of a chain ----

  /** Each next token has no more operations than the one before and does not outlive it. */
  predicate Narrows(prev: Payload, next: Payload) {
    && (forall op | op in next.operations :: op in prev.operations)
    && (prev.expiresAt.Some? ==> next.expiresAt.Some? && next.expiresAt.value <= prev.expiresAt.value)
  }

  /** Every token has a payload, every one but the last a subject, and each narrows the one before. */
  predicate ChainOk(t: Token)
    decreases t
  {
    && t.payload.Some?
    && var p := t.payload.value;
    p.prev.Some? ==>
      ChainOk(p.prev.value) && p.prev.value.payload.value.subject.Some? && Narrows(p.prev.value.payload.value, p)
  }

  /** Something a bearer of the token may ask for. */
  datatype Request = Request(op: int, bucketId: int, pieceCid: Bytes, time: int)

  predicate LinkPermits(p: Payload, r: Request) {
    && r.op in p.operations
    && (p.bucketId.Some? ==> r.bucketId == p.bucketId.value)
    && (p.pieceCid.Some? ==> r.pieceCid == p.pieceCid.value)
    && (p.expiresAt.Some? ==> r.time <= p.expiresAt.value)
  }

  /** A chain permits what every link permits. */
  predicate Permits(t: Token, r: Request)
    decreases t
  {
    && t.payload.Some?
    && LinkPermits(t.payload.value, r)
    && (t.payload.value.prev.Some? ==> Permits(t.payload.value.prev.value, r))
  }

  /**
   A link as `from` makes it of `parent`: it says what its parent's own link does, may be delegated from if and only if
   that may, expires, names no subject, and its predecessor is the parent or nobody.
   */
  ghost predicate Follows(parent: Token, child: Token) {
    && parent.payload.Some? && child.payload.Some?
    && var p, q := parent.payload.value, child.payload.value;
    && q.operations == p.operations && q.bucketId == p.bucketId && q.pieceCid == p.pieceCid
    && q.expiresAt.Some? && (p.expiresAt.Some? ==> q.expiresAt == p.expiresAt)
    && q.canDelegate == Some(p.canDelegate == Some(true))
    && q.subject == None
    && (q.prev == None || q.prev == Some(parent))
  }

  /** The later token gives access that the earlier one did not. */
  ghost predicate Widens(t: Token, u: Token) { exists r :: Permits(u, r) && !Permits(t, r) }

  /** All that the tokens of chain `t` say of a bucket or a piece is what `p` says too. */
  predicate Repeats(p: Payload, t: Token)
    decreases t
  {
    t.payload.Some? ==>
      var q := t.payload.value;
      && (q.bucketId.Some? ==> p.bucketId == q.bucketId)
      && (q.pieceCid.Some? ==> p.pieceCid == q.pieceCid)
      && (q.prev.Some? ==> Repeats(p, q.prev.value))
  }

  /**
   A link that follows a rule-abiding token widens its access in one case only: the token's own predecessors were
   dropped, and one of them restricts the bucket or the piece beyond what the token says itself.
   */
  lemma LinkWidensIff(parent: Token, child: Token)
    requires ChainOk(parent) && Follows(parent, child)
    ensures var p := parent.payload.value;
      Widens(parent, child) <==>
        child.payload.value.prev == None && p.operations != [] && p.prev.Some? && !Repeats(p, p.prev.value)
  {
    var p := parent.payload.value;
    var q := child.payload.value;
    if q.prev == None && p.operations != [] && p.prev.Some? && !Repeats(p, p.prev.value) {
      var s := Outside(p, p.prev.value, p.operations[0], q.expiresAt.value);
      assert Permits(child, s) && !Permits(parent, s);
    } else {
      forall r | Permits(child, r) ensures Permits(parent, r) {
        if q.prev == None && p.prev.Some? {
          assert r.op in p.operations;
          RepeatedPermits(p.prev.value, p, r);
        }
      }
    }
  }

  /** A request that the own link `p` permits and the chain `t` does not. */
  lemma {:induction false} Outside(p: Payload, t: Token, op: int, time: int) returns (r: Request)
    requires op in p.operations && !Repeats(p, t)
    ensures r.op == op && r.time == time && !Permits(t, r)
    ensures p.bucketId.Some? ==> r.bucketId == p.bucketId.value
    ensures p.pieceCid.Some? ==> r.pieceCid == p.pieceCid.value
    decreases t
  {
    var q := t.payload.value;
    var bucket := if p.bucketId.Some? then p.bucketId.value else if q.bucketId == Some(0) then 1 else 0;
    var piece := if p.pieceCid.Some? then p.pieceCid.value else if q.pieceCid.Some? then q.pieceCid.value + [0] else [];
    r := Request(op, bucket, piece, time);
    if (q.bucketId.Some? ==> p.bucketId == q.bucketId) && (q.pieceCid.Some? ==> p.pieceCid == q.pieceCid) {
      r := Outside(p, q.prev.value, op, time);
    }
  }

  /** A chain whose restrictions the link `p` repeats permits whatever `p` does. */
  lemma {:induction false} RepeatedPermits(t: Token, p: Payload, r: Request)
    requires ChainOk(t) && t.payload.Some? && Narrows(t.payload.value, p) && Repeats(p, t) && LinkPermits(p, r)
    ensures Permits(t, r)
    decreases t
  {
    var q := t.payload.value;
    if q.prev.Some? {
      RepeatedPermits(q.prev.value, p, r);
    }
  }

  // ---- Signing ----

  datatype SignerType = Ed25519 | Sr25519 | OtherType

  /** A signer; `id` is the object, `sign` its private key at work. */
  datatype Signer = Signer(id: nat, signerType: SignerType, isWeb3: bool, publicKey: Bytes, sign: Bytes -> Bytes)

  predicate CanSign(s: Signer) { !s.signerType.OtherType? }

  function SignedBy(t: Token, s: Signer): Token {
    t.(signature := Some(Signature(if s.signerType.Ed25519? then 0 else 1, s.publicKey, s.sign(ToBinary(t)))))
  }

  /** One delegation: its time and the signature that was put on the new link. */
  datatype Delegation = Delegation(now: int, signature: Signature)

  /** The token after all the delegations. */
  function Grow(t: Token, ds: seq<Delegation>): Option<Token>
    decreases |ds|
  {
    if ds == [] then Some(t)
    else
      var next := From(t, ds[0].now);
      if next == None then None else Grow(next.value.(signature := Some(ds[0].signature)), ds[1..])
  }

  /** Grown any number of times, a rule-abiding token keeps the rules, and never more than one predecessor chain. */
  lemma {:induction false} GrowKeepsRules(t: Token, ds: seq<Delegation>)
    requires ChainOk(t)
    ensures var u := Grow(t, ds);
      && u.Some? && ChainOk(u.value)
      && (ds != [] ==> Follows(t, u.value))
      // A token that does not say when it expires does so thirty days after it was delegated.
      && (ds != [] && t.payload.value.expiresAt == None ==>
            u.value.payload.value.expiresAt == Some(ds[0].now + 2_592_000_000))
      && (ds != [] ==> u.value.signature == Some(ds[|ds| - 1].signature))
      && (ds != [] ==>
           u.value.payload.value.prev == if |ds| == 1 && t.payload.value.subject.Some? then Some(t) else None)
    decreases |ds|
  {
    if ds != [] {
      var child := From(t, ds[0].now).value.(signature := Some(ds[0].signature));
      GrowKeepsRules(child, ds[1..]);
    }
  }

  /**
   Delegating a rule-abiding token widens access exactly when it drops the token's predecessors - at once if the
   token has no subject, otherwise with the second delegation - and one of them said more than the token repeats.
   */
  lemma GrowWidensIff(t: Token, ds: seq<Delegation>)
    requires ds != [] && ChainOk(t)
    ensures var p := t.payload.value;
      Grow(t, ds).Some?
      && (Widens(t, Grow(t, ds).value) <==>
           && (p.subject == None || |ds| > 1)
           && p.operations != [] && p.prev.Some? && !Repeats(p, p.prev.value))
  {
    GrowKeepsRules(t, ds);
    LinkWidensIff(t, Grow(t, ds).value);
  }

  // ---- Rules of a chain that `from` does not keep ----

  /** The token may name a subject, and that subject may delegate further. */
  predicate MayDelegate(t: Token) { t.payload.Some? && t.payload.value.canDelegate == Some(true) }

  /** Behind a token that may not be delegated from, the next token is the last. */
  predicate DelegationOk(t: Token)
    decreases t
  {
    t.payload.Some? && t.payload.value.prev.Some? ==>
      var prev := t.payload.value.prev.value;
      && DelegationOk(prev)
      && (prev.payload.Some? && prev.payload.value.prev.Some? ==> MayDelegate(prev.payload.value.prev.value))
  }

  /** The token before `t` forbids a token after it. */
  predicate IsLast(t: Token) {
    t.payload.Some? && t.payload.value.prev.Some? && !MayDelegate(t.payload.value.prev.value)
  }

  datatype Restriction = Bucket | Piece

  predicate Mentions(p: Payload, what: Restriction) {
    match what
    case Bucket => p.bucketId.Some?
    case Piece => p.pieceCid.Some?
  }

  /** How many tokens of the chain mention the bucket or the piece. */
  function MentionCount(t: Token, what: Restriction): nat
    decreases t
  {
    if t.payload == None then 0
    else
      var p := t.payload.value;
      (if Mentions(p, what) then 1 else 0) + (if p.prev.Some? then MentionCount(p.prev.value, what) else 0)
  }

  /**
   Delegating from a token that keeps the rule keeps it, save in one case: a single delegation, from a token with a
   subject, whose predecessor had said that it is the last.
   */
  lemma GrowDelegationOkIff(t: Token, ds: seq<Delegation>)
    requires ds != [] && ChainOk(t) && DelegationOk(t)
    ensures Grow(t, ds).Some?
    ensures DelegationOk(Grow(t, ds).value) <==> !(|ds| == 1 && t.payload.value.subject.Some? && IsLast(t))
  {
    GrowKeepsRules(t, ds);
  }

  /**
   The bucket, or the piece, is still mentioned at most once after any number of delegations but one; after one, if
   and only if the token delegated from does not mention it or has no subject.
   */
  lemma GrowMentionsOnceIff(t: Token, ds: seq<Delegation>, what: Restriction)
    requires ds != [] && ChainOk(t) && MentionCount(t, what) <= 1
    ensures Grow(t, ds).Some?
    ensures MentionCount(Grow(t, ds).value, what) <= 1
       <==> !(|ds| == 1 && t.payload.value.subject.Some? && Mentions(t.payload.value, what))
  {
    GrowKeepsRules(t, ds);
    assert Mentions(Grow(t, ds).value.payload.value, what) == Mentions(t.payload.value, what);
    if Mentions(t.payload.value, what) {
      assert MentionCount(t, what) == 1;
    }
  }

  /** A delegation that breaks all three rules: they were kept, and the parent said it is the last. */
  lemma OneDelegationBreaksRules(now: int, signature: Signature) returns (t: Token)
    ensures ChainOk(t) && DelegationOk(t) && MentionCount(t, Bucket) == 1 && MentionCount(t, Piece) == 1
    ensures var u := Grow(t, [Delegation(now, signature)]);
      && u.Some? && ChainOk(u.value) && !DelegationOk(u.value)
      && MentionCount(u.value, Bucket) == 2 && MentionCount(u.value, Piece) == 2
  {
    var root := Token(None, Some(Payload(None, Some([1]), Some(false), None, [GET], None, None)));
    t := Token(None, Some(Payload(Some(root), Some([2]), Some(false), Some(7), [GET], None, Some([9]))));
    var child := From(t, now).value.(signature := Some(signature));
    assert Grow(t, [Delegation(now, signature)]) == Grow(child, []);
  }

  /** Two delegations that give access to every bucket, from a token that was restricted to one by its predecessor. */
  lemma TwoDelegationsWiden(d: Delegation, e: Delegation) returns (t: Token)
    ensures ChainOk(t) && DelegationOk(t) && MentionCount(t, Bucket) == 1
    ensures Grow(t, [d, e]).Some? && Widens(t, Grow(t, [d, e]).value)
  {
    var root := Token(None, Some(Payload(None, Some([1]), Some(true), Some(7), [GET], None, None)));
    t := Token(None, Some(Payload(Some(root), Some([2]), Some(true), None, [GET], None, None)));
    assert GET in t.payload.value.operations;
    GrowWidensIff(t, [d, e]);
  }

  class AuthToken {
    var token: Token

    constructor (t: Token)
      ensures token == t
    {
      token := t;
    }

    /** Signs the token as it is, an earlier signature included; not `ok` is the error for a foreign signer type. */
    method Sign(signer: Signer) returns (ok: bool)
      modifies this
      ensures ok == CanSign(signer)
      ensures ok <==> signer.signerType == Ed25519 || signer.signerType == Sr25519
      ensures token == if ok then SignedBy(old(token), signer) else old(token)
      ensures ok ==> token.payload == old(token).payload && token.signature == Some(Signature(
        if signer.signerType == Ed25519 then 0 else 1, signer.publicKey, signer.sign(ToBinary(old(token)))))
      ensures ok && old(token).payload.Some? ==> (IsSigned(token) <==>
        old(token).payload.value.subject.Some? ==> old(token).payload.value.subject.value == signer.publicKey)
    {
      ok := CanSign(signer);
      if ok {
        token := SignedBy(token, signer);
      }
    }
  }

  // ---- Signers the SDK makes for itself ----

  /** `signerRegistry`: by signer, then by address, the signers made on its behalf. */
  class SignerRegistry {
    var signers: map<nat, map<Bytes, Signer>>

    /** Every entry is filed under its own address and may sign. */
    ghost predicate Valid()
      reads this
    {
      forall id, address | id in signers && address in signers[id] ::
        signers[id][address].publicKey == address && CanSign(signers[id][address])
    }

    constructor ()
      ensures Valid() && signers == map[]
    {
      signers := map[];
    }

    method GetRegistry(signer: Signer) returns (registry: map<Bytes, Signer>)
      requires Valid()
      modifies this
      ensures Valid() && signer.id in signers && registry == signers[signer.id]
      ensures signers == if signer.id in old(signers) then old(signers) else old(signers)[signer.id := map[]]
    {
      if signer.id !in signers {
        signers := signers[signer.id := map[]];
      }
      registry := signers[signer.id];
    }

    /** `createSdkSigner`, given the random signer it made. */
    method CreateSdkSigner(signer: Signer, random: Signer)
      requires Valid() && CanSign(random)
      modifies this
      ensures Valid() && signer.id in signers && random.publicKey in signers[signer.id]
      ensures signers[signer.id][random.publicKey] == random
      ensures forall id, address | id in old(signers) && address in old(signers)[id]
        && !(id == signer.id && address == random.publicKey) ::
          id in signers && address in signers[id] && signers[id][address] == old(signers)[id][address]
    {
      var registry := GetRegistry(signer);
      signers := signers[signer.id := registry[random.publicKey := random]];
    }

    method GetSdkSigner(signer: Signer, address: Bytes) returns (found: Option<Signer>)
      requires Valid()
      modifies this
      ensures Valid() && found == Registered(old(signers), signer, address)
      ensures forall id | id in old(signers) :: id in signers && signers[id] == old(signers)[id]
      ensures forall a :: Registered(signers, signer, a) == Registered(old(signers), signer, a)
    {
      var registry := GetRegistry(signer);
      found := if address in registry then Some(registry[address]) else None;
    }
  }

  function Registered(signers: map<nat, map<Bytes, Signer>>, signer: Signer, address: Bytes): Option<Signer> {
    if signer.id in signers && address in signers[signer.id] then Some(signers[signer.id][address]) else None
  }

  // ---- The token of an operation ----

  /** Who signs the next link of `t`: the SDK signer its subject names, if one is registered, else the user. */
  function NextSigner(signers: map<nat, map<Bytes, Signer>>, signer: Signer, t: Token): Signer {
    if t.payload.Some? && t.payload.value.subject.Some?
    then
      var found := Registered(signers, signer, t.payload.value.subject.value);
      if found.Some? then found.value else signer
    else signer
  }

  /** Each next token is signed by the subject of the one before. */
  predicate SignedBySubjects(t: Token)
    decreases t
  {
    t.payload.Some? && t.payload.value.prev.Some? ==>
      var prev := t.payload.value.prev.value;
      && SignedBySubjects(prev)
      && (prev.payload.Some? && prev.payload.value.subject.Some? ==>
            t.signature.Some? && t.signature.value.signer == prev.payload.value.subject.value)
  }

  /** The link behind `t` is signed by its subject: who signs it is that subject, or there is none. */
  predicate SubjectSigns(signers: map<nat, map<Bytes, Signer>>, signer: Signer, t: Token) {
    t.payload.Some? && t.payload.value.subject.Some? ==>
      var subject := t.payload.value.subject.value;
      Registered(signers, signer, subject).Some? || signer.publicKey == subject
  }

  /** A token for somebody else's key: the user signs the next link, and the chain is broken. */
  lemma ForeignSubjectBreaksSigning(user: Signer, now: int) returns (t: Token)
    requires user.publicKey != [9]
    ensures t.payload.Some? && t.payload.value.subject == Some([9]) && !IsSigned(t) && SignedBySubjects(t)
    ensures From(t, now).Some?
    ensures !SubjectSigns(map[], user, t)
    ensures !SignedBySubjects(SignedBy(From(t, now).value, NextSigner(map[], user, t)))
  {
    t := Token(None, Some(Payload(None, Some([9]), Some(true), None, [GET], None, None)));
    assert Registered(map[], user, [9]) == None;
  }

  /** The token that `createSdkToken` makes; `None` where it throws. */
  function SdkToken(signer: Signer, random: Signer, now: int): Option<Token> {
    if CanSign(signer)
    then Some(SignedBy(FullAccess(if signer.isWeb3 then Some(random.publicKey) else None, now), signer))
    else None
  }

  /** The root token gives every operation on every bucket for thirty days, and nobody may delegate from it. */
  lemma RootTokenIs(signer: Signer, random: Signer, now: int)
    ensures var root := SdkToken(signer, random, now);
      && (root.Some? <==> signer.signerType == Ed25519 || signer.signerType == Sr25519)
      && (root.Some? ==> root.value.payload.Some? && root.value.signature.Some?)
      && (root.Some? ==>
           var p := root.value.payload.value;
           && p.operations == [2, 1, 3] && p.canDelegate == Some(false) && p.expiresAt == Some(now + 2_592_000_000)
           && p.bucketId == None && p.pieceCid == None && p.prev == None
           && p.subject == (if signer.isWeb3 then Some(random.publicKey) else None)
           && root.value.signature.value.signer == signer.publicKey
           && root.value.signature.value.value == signer.sign(ToBinary(Token(None, Some(p)))))
  {}

  /** `rootTokenPromise`: not asked for yet, or what it settled with - `None` if it was rejected. */
  datatype RootToken = NotAsked | Settled(token: Option<Token>)

  class StorageNode {
    const signer: Signer
    const registry: SignerRegistry
    var rootToken: RootToken

    ghost predicate Valid()
      reads this, registry
    {
      registry.Valid() && (rootToken == Settled(None) ==> !CanSign(signer))
    }

    constructor (signer: Signer, registry: SignerRegistry, authToken: Option<Token>)
      requires registry.Valid()
      ensures Valid() && this.signer == signer && this.registry == registry
      ensures rootToken == if authToken.Some? then Settled(authToken) else NotAsked
    {
      this.signer, this.registry := signer, registry;
      rootToken := if authToken.Some? then Settled(authToken) else NotAsked;
    }

    /**
     `getRootToken` with `createSdkToken`; `random` is the signer a Web3 wallet has made for it. It is asked for
     once: a failure is kept like a token, though the random signer has been filed by then.
     */
    method GetRootToken(random: Signer, now: int) returns (root: Option<Token>)
      requires Valid() && CanSign(random)
      modifies this, registry
      ensures Valid() && rootToken == Settled(root)
      ensures old(rootToken).Settled? ==> rootToken == old(rootToken) && registry.signers == old(registry.signers)
      ensures old(rootToken).NotAsked? ==>
        && root == SdkToken(signer, random, now)
        && (signer.isWeb3 ==> Registered(registry.signers, signer, random.publicKey) == Some(random))
    {
      if rootToken.Settled? {
        return rootToken.token;
      }
      var subject := None;
      if signer.isWeb3 {
        registry.CreateSdkSigner(signer, random);
        subject := Some(random.publicKey);
      }
      var t := new AuthToken(FullAccess(subject, now));
      var ok := t.Sign(signer);
      root := if ok then Some(t.token) else None;
      rootToken := Settled(root);
    }

    /** `createAuthToken`; `None` where it throws. */
    method CreateAuthToken(accessToken: Option<Token>, random: Signer, now: int) returns (t: Option<Token>)
      requires Valid() && CanSign(random)
      modifies this, registry
      ensures Valid()
      ensures t.Some? ==> IsSigned(t.value)
      ensures accessToken.Some? && IsSigned(accessToken.value) ==> t == accessToken
      ensures !(accessToken.Some? && IsSigned(accessToken.value)) && t.Some? ==>
        && (accessToken == None ==> rootToken.Settled? && rootToken.token.Some?)
        && var unsigned := if accessToken.Some? then accessToken.value else rootToken.token.value;
        && From(unsigned, now).Some?
        && t == Some(SignedBy(From(unsigned, now).value, NextSigner(registry.signers, signer, unsigned)))
        // The chain stays signed by its subjects if and only if the last subject's key is at hand.
        && (SignedBySubjects(unsigned) ==>
             (SignedBySubjects(t.value) <==> SubjectSigns(registry.signers, signer, unsigned)))
      // The root token is asked for where it is needed, and once.
      ensures rootToken ==
        if accessToken == None && old(rootToken).NotAsked? then Settled(SdkToken(signer, random, now))
        else old(rootToken)
      // It throws if and only if there is no token to go on from, or none with a payload, or nobody who can sign.
      ensures t == None <==>
        && !(accessToken.Some? && IsSigned(accessToken.value))
        && var unsigned := if accessToken.Some? then accessToken else rootToken.token;
        || unsigned == None
        || unsigned.value.payload == None
        || !CanSign(NextSigner(registry.signers, signer, unsigned.value))
    {
      if accessToken.Some? && IsSigned(accessToken.value) {
        return accessToken;
      }
      var unsigned := accessToken;
      if unsigned == None {
        unsigned := GetRootToken(random, now);
      }
      if unsigned == None {
        return None;
      }
      var delegate := signer;
      if unsigned.value.payload.Some? && unsigned.value.payload.value.subject.Some? {
        var found := registry.GetSdkSigner(signer, unsigned.value.payload.value.subject.value);
        if found.Some? {
          delegate := found.value;
        }
      }
      var next := From(unsigned.value, now);
      if next == None {
        return None;
      }
      var token := new AuthToken(next.value);
      var ok := token.Sign(delegate);
      if !ok {
        return None;
      }
      t := Some(token.token);
    }
  }
}
