/** Transactions, and the cryptography they are signed and hashed with. */
module Transactions {
  import opened Wrappers
  import opened Integers

  /** The strings of the native types. */
  const NATIVE_TYPES: set<string> :=
    {"MINT", "TRANSFER", "LOCK", "RELEASE_MILESTONE", "REFUND", "FREEZE_DISPUTE", "ARBITRATE"}

  type OtherType = s: string | s !in NATIVE_TYPES witness ""

  /** The seven native types, or any other type string. */
  datatype TxType =
    | Mint | Transfer | Lock | ReleaseMilestone | Refund | FreezeDispute | Arbitrate | Unknown(name: OtherType)

  datatype Tx = Tx(
    id: string,
    kind: TxType,
    from: string,
    to: string,
    amount: int64,
    contractId: string,
    milestoneId: string,
    nonce: int64,
    timestamp: int,
    publicKey: string,
    signature: string)

  /** The fields that are hashed and signed: everything but ID, PublicKey and Signature. */
  datatype Canonical = Canonical(
    kind: TxType,
    from: string,
    to: string,
    amount: int64,
    contractId: string,
    milestoneId: string,
    nonce: int64,
    timestamp: int)

  /** The header fields of a block that its hash commits to. */
  datatype Header = Header(index: int, timestamp: int, prevHash: string, merkleRoot: string, validatorId: string)

  /**
   * SHA-256 (hex), JSON encoding, secp256k1 and address derivation, as uninterpreted functions.
   * `Verify` is true when the library reports a valid signature without an error.
   */
  datatype Crypto = Crypto(
    Sha: string -> string,
    TxBytes: Canonical -> string,
    HeaderBytes: Header -> string,
    Sign: (string, string) -> Option<string>,
    Verify: (string, string, string) -> bool,
    Address: string -> string)

  const HASH_WIDTH: nat := 64

  ghost predicate FixedWidth(c: Crypto) {
    forall x :: |c.Sha(x)| == HASH_WIDTH
  }

  ghost predicate InjectiveEncodings(c: Crypto) {
    && (forall x, y :: c.TxBytes(x) == c.TxBytes(y) ==> x == y)
    && (forall x, y :: c.HeaderBytes(x) == c.HeaderBytes(y) ==> x == y)
  }

  /** No two of the byte strings that were actually hashed share a digest. */
  ghost predicate CollisionFreeOn(c: Crypto, hashed: set<string>) {
    forall x, y :: x in hashed && y in hashed && c.Sha(x) == c.Sha(y) ==> x == y
  }

  function Canon(t: Tx): Canonical {
    Canonical(t.kind, t.from, t.to, t.amount, t.contractId, t.milestoneId, t.nonce, t.timestamp)
  }

  function TxHash(c: Crypto, t: Tx): string {
    c.Sha(c.TxBytes(Canon(t)))
  }

  /** An unsigned transaction whose ID is its hash. */
  function NewTransaction(c: Crypto, kind: TxType, from: string, to: string, amount: int64,
                          contractId: string, milestoneId: string, nonce: int64, timestamp: int): Tx
  {
    var t := Tx("", kind, from, to, amount, contractId, milestoneId, nonce, timestamp, "", "");
    t.(id := TxHash(c, t))
  }

  /** Signing fills PublicKey and Signature and fails when the key does not parse. */
  function SignTx(c: Crypto, t: Tx, privateKey: string, publicKey: string): Option<Tx> {
    match c.Sign(privateKey, TxHash(c, t))
    case None => None
    case Some(sig) => Some(t.(publicKey := publicKey, signature := sig))
  }

  /** MINT is exempt; every other type needs a key that owns `from` and signs the hash. */
  predicate SignatureValid(c: Crypto, t: Tx) {
    t.kind.Mint? ||
    (&& t.signature != ""
     && t.publicKey != ""
     && c.Address(t.publicKey) == t.from
     && c.Verify(t.publicKey, TxHash(c, t), t.signature))
  }

  /** A key pair whose signatures verify and are never empty. */
  ghost predicate KeyPair(c: Crypto, privateKey: string, publicKey: string) {
    forall h :: match c.Sign(privateKey, h)
                case None => false
                case Some(sig) => sig != "" && c.Verify(publicKey, h, sig)
  }

  lemma SignedIsValid(c: Crypto, t: Tx, privateKey: string, publicKey: string)
    requires KeyPair(c, privateKey, publicKey)
    requires publicKey != "" && c.Address(publicKey) == t.from
    ensures SignTx(c, t, privateKey, publicKey).Some?
    ensures SignatureValid(c, SignTx(c, t, privateKey, publicKey).value)
    ensures Canon(SignTx(c, t, privateKey, publicKey).value) == Canon(t)
  {
    var h := TxHash(c, t);
    assert c.Sign(privateKey, h).Some?;
    var signed := SignTx(c, t, privateKey, publicKey).value;
    assert Canon(signed) == Canon(t);
  }
}
