/** The content model of the public record: record types, their parent and op tables, the transaction
  * envelope and the stored transaction. Ids, hashes and nullifiers are opaque, so integers stand for them. */
module RecordTypes {
  import opened Wrappers

  type EntityId = int
  type TxId = int
  type Hash = int
  type UserId = int
  type Nullifier = int
  type Jurisdiction = int

  datatype RecordType =
    Post | Comment | Reaction | Petition | PetitionSignature | Poll | Vote | PollResult | PlatformOps

  datatype Op = Create | Update | Delete

  /** `Platform` is the reserved author "platform"; a thread persona is a public key. */
  datatype Key = Platform | Pubkey(n: int)

  datatype SignScheme = P256 | WebauthnEs256

  const COMMENT_MAX_DEPTH: nat := 3
  const REACTION_KINDS: seq<string> := ["check", "cross"]

  function ParentRules(t: RecordType): set<RecordType> {
    match t
    case Comment => {Post, Petition, Poll, PollResult, Comment}
    case Reaction => {Post, Comment, PollResult}
    case PetitionSignature => {Petition}
    case Vote => {Poll}
    case _ => {}
  }

  function AllowedOps(t: RecordType): set<Op> {
    match t
    case PlatformOps => {Create, Update}
    case PetitionSignature => {Create, Delete}
    case Vote => {Create, Update}
    case _ => {Create, Update, Delete}
  }

  predicate IsRootType(t: RecordType) { ParentRules(t) == {} }

  predicate OpAllowed(t: RecordType, op: Op) { op in AllowedOps(t) }

  predicate ParentAllowed(child: RecordType, parent: RecordType) { parent in ParentRules(child) }

  /** At most one active entity per (author, parent). */
  predicate IsSingleton(t: RecordType) { t in {Reaction, Vote, PetitionSignature} }

  /** The tables from the other side: what may hang under a record, and what may happen to it. A vote is never
    * withdrawn, a signature never edited, and a platform record neither hangs nor goes. */
  lemma TablesExactly(child: RecordType, parent: RecordType, op: Op)
    ensures ParentAllowed(child, parent) <==>
      match parent
      case Post => child in {Comment, Reaction}
      case Comment => child in {Comment, Reaction}
      case Petition => child in {Comment, PetitionSignature}
      case Poll => child in {Comment, Vote}
      case PollResult => child in {Comment, Reaction}
      case _ => false
    ensures IsRootType(child) <==> child in {Post, Petition, Poll, PollResult, PlatformOps}
    ensures OpAllowed(child, op) <==>
      match op
      case Create => true
      case Update => child != PetitionSignature
      case Delete => child != Vote && child != PlatformOps
    ensures IsSingleton(child) <==> !IsRootType(child) && child != Comment
  {
  }

  /** An entity's deadline as the JSON field holds it: missing, the empty string, a parsable or an
    * unparsable ISO date. */
  datatype Deadline = Absent | Blank | At(ms: int) | Unparsable

  datatype EntityRules = EntityRules(deadline: Deadline, allowChange: Option<bool>, allowRevoke: Option<bool>)

  /** The content fields that the record engine itself reads; `text` stands for the rest. */
  datatype Content =
    | DeleteMarker
    | Json(kind: Option<string>, option: Option<string>, rules: Option<EntityRules>, text: string)

  datatype ParentRef = ParentRef(typ: RecordType, id: EntityId)

  /** The canonical public envelope. `createdAt` is None when it does not parse as a date. */
  datatype Envelope = Envelope(
    txId: TxId,
    typ: RecordType,
    entityId: EntityId,
    op: Op,
    parentType: Option<RecordType>,
    parentId: Option<EntityId>,
    parentRevisionTxId: Option<TxId>,
    parentRevisionHash: Option<Hash>,
    author: Key,
    signer: Option<Key>,
    signScheme: Option<SignScheme>,
    signature: Option<int>,
    webauthn: Option<int>,
    createdAt: Option<int>,
    prevHash: Option<Hash>,
    contentHash: Hash,
    nullifier: Option<Nullifier>,
    proof: Option<int>)

  /** A row of the event log: the envelope and its hash. The row's other columns repeat envelope fields. */
  datatype Tx = Tx(env: Envelope, hash: Hash)

  /** What a transaction commits to; erasure removes it. */
  datatype Plain = Plain(salt: int, content: Content)

  datatype ThreadKey = ThreadKey(userId: UserId, threadId: EntityId, jurisdiction: Jurisdiction)

  /** The functions this model leaves uninterpreted: the leaf hash of an envelope, the salted content
    * commitment, per-type content validation and the per-jurisdiction tables. */
  datatype Oracle = Oracle(
    leafHash: Envelope -> Hash,
    commitment: (TxId, int, Content) -> Hash,
    contentOk: (RecordType, Op, Content, Option<Jurisdiction>) -> bool,
    rules: Option<Jurisdiction> -> EntityRules,
    requiredScheme: (RecordType, Jurisdiction) -> Option<SignScheme>)

  /** The named assumption on the leaf hash: no two envelopes collide. */
  ghost predicate CollisionFree(o: Oracle) {
    forall a, b :: o.leafHash(a) == o.leafHash(b) ==> a == b
  }
}
