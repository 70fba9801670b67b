/** The pure wallet helpers: shortening an address for display, and the
    disconnect helper, which only returns null. */
module Wallet {
  import opened JsString

  /** A JavaScript value that is either a string or absent (null/undefined). */
  datatype Option<T> = None | Some(value: T)

  /** Characters kept from the front and from the back of an address. */
  const PrefixLength: nat := 6
  const SuffixLength: nat := 4
  const Ellipsis: string := "..."

  /** `!address` in JavaScript: absent, or the empty string. */
  predicate Falsy(address: Option<string>)
  {
    address.None? || address.value == []
  }

  /** The first min(6, n) characters of s. */
  function Head(s: string): string
  {
    s[..Min(PrefixLength, |s|)]
  }

  /** The last min(4, n) characters of s. */
  function Tail(s: string): string
  {
    s[|s| - Min(SuffixLength, |s|)..]
  }

  /** `shortenAddress(address)`: "" for a falsy input, otherwise the first
      six characters, "..." and the last four, each cut by substring.
      Nothing is validated and every input has a result. */
  function ShortenAddress(address: Option<string>): (r: string)
    ensures Falsy(address) ==> r == ""
    ensures !Falsy(address) ==> r == Head(address.value) + Ellipsis + Tail(address.value)
  {
    if Falsy(address) then ""
    else
      var s := address.value;
      Substring(s, 0, PrefixLength) + Ellipsis + SubstringFrom(s, |s| - SuffixLength)
  }

  /** Only a falsy input is shortened to the empty string. */
  lemma ShortenEmptyIff(address: Option<string>)
    ensures ShortenAddress(address) == "" <==> Falsy(address)
  {
  }

  /** The length of the short form: min(6,n) + 3 + min(4,n), which is 13
      for every string of at least ten characters. */
  lemma ShortenLength(s: string)
    requires s != []
    ensures |ShortenAddress(Some(s))| == Min(6, |s|) + 3 + Min(4, |s|)
    ensures |s| >= 10 ==> |ShortenAddress(Some(s))| == 13
  {
  }

  /** The short form begins with the first min(6, n) characters, followed
      by "...", and ends with the last min(4, n) characters. */
  lemma ShortenParts(s: string)
    requires s != []
    ensures var r, p := ShortenAddress(Some(s)), Min(6, |s|);
      && r[..p] == s[..p]
      && r[p..p + 3] == "..."
      && r[|r| - Min(4, |s|)..] == s[|s| - Min(4, |s|)..]
  {
  }

  /** Shorter than four characters: the negative start of the suffix cut is
      clamped to 0, so the whole input follows the ellipsis. */
  lemma ShortenVeryShort(s: string)
    requires 0 < |s| < 4
    ensures ShortenAddress(Some(s)) == s + "..." + s
  {
  }

  /** Shorter than ten characters the front and back cuts overlap, so some
      character is shown twice; from ten on they are disjoint and the short
      form shows at most the input's own characters. */
  lemma ShortenOverlap(s: string)
    requires s != []
    ensures |s| < 10 <==> |ShortenAddress(Some(s))| - 3 > |s|
  {
  }

  /** Character by character: position i of the short form, as an index
      into the input or a dot of the ellipsis. */
  lemma ShortenAt(s: string, i: nat)
    requires s != [] && i < |ShortenAddress(Some(s))|
    ensures var r, p, q := ShortenAddress(Some(s)), Min(6, |s|), Min(4, |s|);
      && (i < p ==> r[i] == s[i])
      && (p <= i < p + 3 ==> r[i] == '.')
      && (p + 3 <= i ==> r[i] == s[|s| - q + (i - p - 3)])
  {
  }

  /** Two non-empty inputs have the same short form exactly when they agree
      on their first min(6, n) and their last min(4, n) characters. */
  lemma ShortenSameIff(s: string, t: string)
    requires s != [] && t != []
    ensures ShortenAddress(Some(s)) == ShortenAddress(Some(t))
        <==> Head(s) == Head(t) && Tail(s) == Tail(t)
  {
    var rs, rt := ShortenAddress(Some(s)), ShortenAddress(Some(t));
    if rs == rt {
      // the length of the short form determines both cut lengths
      assert |Head(s)| == |Head(t)| && |Tail(s)| == |Tail(t)| by {
        assert |rs| == |Head(s)| + 3 + |Tail(s)|;
        assert |rt| == |Head(t)| + 3 + |Tail(t)|;
      }
      var p, q := |Head(s)|, |Tail(s)|;
      assert Head(s) == rs[..p] == rt[..p] == Head(t);
      assert Tail(s) == rs[|rs| - q..] == rt[|rt| - q..] == Tail(t);
    }
  }

  predicate IsHexDigit(c: char)
  {
    '0' <= c <= '9' || 'a' <= c <= 'f' || 'A' <= c <= 'F'
  }

  /** A 20-byte account address: "0x" and forty hexadecimal digits. */
  predicate IsAddress(s: string)
  {
    |s| == 42 && s[0] == '0' && s[1] == 'x' && forall i :: 2 <= i < 42 ==> IsHexDigit(s[i])
  }

  /** For an account address the short form is "0x", four hex digits,
      "..." and four hex digits, thirteen characters in all. */
  lemma ShortenOfAddress(s: string)
    requires IsAddress(s)
    ensures var r := ShortenAddress(Some(s));
      && |r| == 13
      && r == s[..6] + "..." + s[38..]
      && r[0] == '0' && r[1] == 'x'
      && r[6..9] == "..."
      && (forall i :: 2 <= i < 6 || 9 <= i < 13 ==> IsHexDigit(r[i]))
  {
  }

  /** The short form loses information: two different account addresses
      can be displayed identically. */
  lemma ShortenCollides()
    ensures var a, b := "0x1234560000000000000000000000000000009abc",
                        "0x1234561111111111111111111111111111119abc";
      a != b && IsAddress(a) && IsAddress(b)
      && ShortenAddress(Some(a)) == ShortenAddress(Some(b)) == "0x1234...9abc"
  {
    var a, b := "0x1234560000000000000000000000000000009abc",
                "0x1234561111111111111111111111111111119abc";
    assert a[8] != b[8];
    assert IsAddress(a) by {
      forall i | 2 <= i < 42 ensures IsHexDigit(a[i]) { }
    }
    assert IsAddress(b) by {
      forall i | 2 <= i < 42 ensures IsHexDigit(b[i]) { }
    }
    assert a[..6] == b[..6] == "0x1234" by {
      forall i | 0 <= i < 6 ensures a[i] == b[i] == "0x1234"[i] { }
    }
    assert Tail(a) == "9abc" == Tail(b);
  }

  /** `disconnectWallet()`: there is no provider-side disconnect; it returns
      null and has no effect. */
  function DisconnectWallet(): (r: Option<string>)
    ensures r.None? && Falsy(r) && ShortenAddress(r) == ""
  {
    None
  }

  /** The wallet state a caller would hold after storing disconnectWallet's
      result in place of its previous state. No caller in the application
      does this; it states what the helper would give one. */
  function AfterDisconnect(state: Option<string>): (next: Option<string>)
    ensures next.None? && ShortenAddress(next) == ""
  {
    DisconnectWallet()
  }

  /** Disconnecting forgets the prior state and a second disconnect changes
      nothing. */
  lemma DisconnectIdempotent(state: Option<string>, other: Option<string>)
    ensures AfterDisconnect(AfterDisconnect(state)) == AfterDisconnect(state)
    ensures AfterDisconnect(state) == AfterDisconnect(other)
    ensures AfterDisconnect(state).None?
  {
  }
}
