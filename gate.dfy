/**
 * The authorization gate in front of every write action of the admin panel:
 * the wallet must be connected, on Sepolia, and be the contract's owner.
 * The wallet state (connection, account, chain, the contract's `owner()`)
 * comes from the wallet library and is an input here.
 */
module Gate {
  import opened Common
  import opened Text

  /** The chain id of Sepolia. */
  const SepoliaChainId: int := 11155111

  /** What the wallet hooks report: connection, account address, chain id and the contract owner read. */
  datatype Wallet = Wallet(isConnected: bool, address: Option<string>, chainId: int, owner: Option<string>)

  /** `!!v` for an optional string: present and not empty. */
  predicate Truthy(o: Option<string>)
  {
    o.Some? && o.value != ""
  }

  /** `isOwner`: both addresses known and equal once lower-cased. */
  predicate IsOwner(w: Wallet)
  {
    Truthy(w.address) && Truthy(w.owner) && Lower(w.address.value) == Lower(w.owner.value)
  }

  /** `canAdmin`: connected, on Sepolia, and the owner. */
  predicate CanAdmin(w: Wallet)
  {
    w.isConnected && w.chainId == SepoliaChainId && IsOwner(w)
  }

  /** The reasons `requireReady` can give, in the order it checks them. */
  datatype NotReady = NotConnected | WrongChain | NotOwner

  /**
   * `requireReady`: the first failing check, or nothing when the wallet may
   * act. It lets through exactly the wallets `canAdmin` accepts.
   */
  function RequireReady(w: Wallet): (r: Option<NotReady>)
    ensures r == Some(NotConnected) <==> !w.isConnected
    ensures r == Some(WrongChain) <==> w.isConnected && w.chainId != SepoliaChainId
    ensures r == Some(NotOwner) <==> w.isConnected && w.chainId == SepoliaChainId && !IsOwner(w)
    ensures r == None <==> CanAdmin(w)
  {
    if !w.isConnected then Some(NotConnected)
    else if w.chainId != SepoliaChainId then Some(WrongChain)
    else if !IsOwner(w) then Some(NotOwner)
    else None
  }

  /** The message `requireReady` returns; never empty, so the caller always stops on it. */
  function Message(n: NotReady): (m: string)
    ensures m != ""
  {
    match n
    case NotConnected => "Connecte ton wallet."
    case WrongChain => "Passe sur Sepolia."
    case NotOwner => "Not authorized: ce wallet n’est pas owner du contrat."
  }

  function LowerOpt(o: Option<string>): Option<string>
  {
    match o
    case None => None
    case Some(s) => Some(Lower(s))
  }

  /**
   * The owner match ignores case: lower-casing either address, or both,
   * changes nothing, and a missing or empty address never matches.
   */
  lemma OwnerIgnoresCase(w: Wallet)
    ensures IsOwner(w) <==> IsOwner(w.(address := LowerOpt(w.address), owner := LowerOpt(w.owner)))
    ensures IsOwner(w) <==> IsOwner(w.(address := LowerOpt(w.address)))
    ensures IsOwner(w) <==> IsOwner(w.(owner := LowerOpt(w.owner)))
    ensures w.address.None? || w.owner.None? ==> !IsOwner(w)
  {
    if w.address.Some? {
      LowerIdempotent(w.address.value);
    }
    if w.owner.Some? {
      LowerIdempotent(w.owner.value);
    }
  }
}
