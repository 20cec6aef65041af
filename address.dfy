/**
 * The account-address check that the panel imports from viem (`isAddress`
 * with its default strict mode): the text must be `0x` followed by exactly 40
 * hexadecimal digits, and a mixed-case address must also carry a valid EIP-55
 * checksum. The checksum needs Keccak-256, which is not modelled: it is the
 * parameter `checksumOk`, about which nothing is assumed.
 */
module Address {
  import opened Text

  predicate IsHexDigit(c: char)
  {
    '0' <= c <= '9' || 'a' <= c <= 'f' || 'A' <= c <= 'F'
  }

  /** The regular expression `^0x[a-fA-F0-9]{40}$`. */
  predicate HasAddressShape(s: string)
  {
    && |s| == 42 && s[0] == '0' && s[1] == 'x'
    && forall i :: 2 <= i < 42 ==> IsHexDigit(s[i])
  }

  /** `isAddress(s)`: the shape, and either all lower case or an accepted checksum. */
  predicate IsAddress(s: string, checksumOk: string -> bool)
    ensures IsAddress(s, checksumOk) ==> HasAddressShape(s)
    ensures HasAddressShape(s) && Lower(s) == s ==> IsAddress(s, checksumOk)
    ensures HasAddressShape(s) && Lower(s) != s ==> (IsAddress(s, checksumOk) <==> checksumOk(s))
  {
    HasAddressShape(s) && (Lower(s) == s || checksumOk(s))
  }

  /** Every character of an accepted address is a hexadecimal digit or the `x` of its prefix. */
  lemma AddressCharacters(s: string)
    requires HasAddressShape(s)
    ensures |s| == 42
    ensures forall i :: 0 <= i < |s| ==> IsHexDigit(s[i]) || s[i] == 'x'
  {
  }

  /** Addresses are never cut by `trim`: they neither start nor end with whitespace. */
  lemma AddressIsTrimmed(s: string)
    requires HasAddressShape(s)
    ensures Trim(s) == s
  {
    assert IsHexDigit(s[41]);
    TrimKeeps(s);
  }
}
