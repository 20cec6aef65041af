/**
 * The student page's derived values: whether the connected wallet holds a
 * credential, the HTTPS address metadata and images are fetched from (an
 * `ipfs://` URI goes through the public ipfs.io gateway), and the
 * attributes shown. Reading the contract and fetching the metadata are
 * inputs here.
 */
module Student {
  import opened Common
  import opened Text

  const IpfsScheme: string := "ipfs://"
  const IpfsGateway: string := "https://ipfs.io/ipfs/"
  const MaxShownAttributes: nat := 12

  /** `tokenId ? BigInt(tokenId) : 0n`: the token id read from `tokenIdOf`, 0 when there is none. */
  function Tid(tokenId: Option<nat>): nat
  {
    match tokenId
    case None => 0
    case Some(t) => t
  }

  /**
   * `hasToken`: connected, done loading, and `tid > 0`; that is, a token id
   * was read and it is not 0.
   */
  predicate HasToken(isConnected: bool, isLoadingToken: bool, tokenId: Option<nat>)
    ensures HasToken(isConnected, isLoadingToken, tokenId) <==>
      isConnected && !isLoadingToken && tokenId.Some? && tokenId.value != 0
  {
    isConnected && !isLoadingToken && Tid(tokenId) > 0
  }

  /** The URL fetched for a URI: `ipfs://` replaced by the gateway prefix, anything else unchanged. */
  function GatewayUrl(uri: string): string
  {
    if StartsWith(uri, IpfsScheme) then IpfsGateway + ReplaceFirst(uri, IpfsScheme, "") else uri
  }

  /**
   * An `ipfs://` URI becomes the gateway prefix followed by the rest of the
   * URI after the scheme; any other URI is passed through as it is.
   */
  lemma GatewayUrlRewrites(uri: string)
    ensures StartsWith(uri, IpfsScheme) ==> GatewayUrl(uri) == IpfsGateway + uri[|IpfsScheme|..]
    ensures !StartsWith(uri, IpfsScheme) ==> GatewayUrl(uri) == uri
  {
    if StartsWith(uri, IpfsScheme) {
      ReplacePrefix(uri, IpfsScheme, "");
      assert "" + uri[|IpfsScheme|..] == uri[|IpfsScheme|..];
    }
  }

  /** A rewritten URL is an HTTPS one, so rewriting again changes nothing. */
  lemma GatewayUrlIdempotent(uri: string)
    ensures GatewayUrl(GatewayUrl(uri)) == GatewayUrl(uri)
  {
    GatewayUrlRewrites(uri);
    var u := GatewayUrl(uri);
    if StartsWith(uri, IpfsScheme) {
      assert u[0] == 'h';
    }
    GatewayUrlRewrites(u);
  }

  /** The metadata URL the page loads: none while `tokenURI` is missing or empty, else the rewritten URI. */
  function MetadataUrl(uri: Option<string>): (url: Option<string>)
    ensures url.Some? <==> uri.Some? && uri.value != ""
    ensures url.Some? ==> url.value == GatewayUrl(uri.value)
  {
    match uri
    case None => None
    case Some(u) => if u == "" then None else Some(GatewayUrl(u))
  }

  /** `imageUrl`: null when the metadata has no image (or an empty one), else the rewritten image URI. */
  function ImageUrl(image: Option<string>): (url: Option<string>)
    ensures url.None? <==> image.None? || image.value == ""
    ensures url.Some? ==> url.value == GatewayUrl(image.value)
  {
    match image
    case None => None
    case Some(img) => if img == "" then None else Some(GatewayUrl(img))
  }

  /** `attributes.slice(0, 12)`: the first twelve attributes, in their order. */
  function ShownAttributes<T>(attrs: seq<T>): (shown: seq<T>)
    ensures |shown| == Min(MaxShownAttributes, |attrs|)
    ensures forall i :: 0 <= i < |shown| ==> shown[i] == attrs[i]
  {
    Take(attrs, MaxShownAttributes)
  }
}
