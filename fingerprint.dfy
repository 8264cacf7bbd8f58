/**
 * make_device_cid: the device id is a digest of the raw string `"{ip}|{ua}"`.
 * The digest (SHA-256 of the UTF-8 bytes, as hex) is a parameter `digest` of the model.
 */
module Fingerprint {
  import opened Options

  /** The raw fingerprint string that is hashed. */
  function RawFingerprint(ip: string, ua: string): string {
    ip + "|" + ua
  }

  /** The device id of a request, from its remote address and User-Agent header, each possibly missing. */
  function DeviceCid(digest: string -> string, remoteAddr: Option<string>, userAgent: Option<string>): string {
    digest(RawFingerprint(OrEmpty(remoteAddr), OrEmpty(userAgent)))
  }

  /** The device id depends on nothing but the ip and the user agent, a missing one counting as `''`. */
  lemma DeviceCidDependsOnlyOnIpAndAgent(digest: string -> string, a1: Option<string>, u1: Option<string>,
                                         a2: Option<string>, u2: Option<string>)
    requires OrEmpty(a1) == OrEmpty(a2) && OrEmpty(u1) == OrEmpty(u2)
    ensures DeviceCid(digest, a1, u1) == DeviceCid(digest, a2, u2)
    ensures DeviceCid(digest, None, u1) == DeviceCid(digest, Some(""), u1)
    ensures DeviceCid(digest, a1, None) == DeviceCid(digest, a1, Some(""))
  {
  }

  /** An ip without a `|` can be read back from the raw string, so the raw string determines the pair. */
  lemma RawFingerprintInjective(ip1: string, ua1: string, ip2: string, ua2: string)
    requires '|' !in ip1 && '|' !in ip2
    ensures RawFingerprint(ip1, ua1) == RawFingerprint(ip2, ua2) <==> ip1 == ip2 && ua1 == ua2
  {
    var r1, r2 := RawFingerprint(ip1, ua1), RawFingerprint(ip2, ua2);
    if r1 == r2 {
      if |ip1| != |ip2| {
        var k := if |ip1| < |ip2| then |ip1| else |ip2|;
        BarPosition(ip1, ua1, k);
        BarPosition(ip2, ua2, k);
        assert false;
      }
      assert ip1 == r1[..|ip1|] == r2[..|ip2|] == ip2;
      assert ua1 == r1[|ip1| + 1..] == r2[|ip2| + 1..] == ua2;
    }
  }

  /** In the raw string, position `k` is the `|` separator exactly when `k` is the length of an ip without `|`. */
  lemma BarPosition(ip: string, ua: string, k: nat)
    requires '|' !in ip && k <= |ip|
    ensures RawFingerprint(ip, ua)[k] == '|' <==> k == |ip|
  {
    if k < |ip| {
      assert RawFingerprint(ip, ua)[k] == ip[k];
    }
  }

  /** With a `|` inside the ip part, two different pairs share one raw string. */
  lemma RawFingerprintAmbiguousWithBar(p: string, q: string, ua: string)
    ensures RawFingerprint(p + "|" + q, ua) == RawFingerprint(p, q + "|" + ua)
    ensures p + "|" + q != p
  {
    assert |p + "|" + q| > |p|;
  }

  /** The digest maps different strings to different ids. */
  ghost predicate Injective(digest: string -> string) {
    forall x, y :: digest(x) == digest(y) ==> x == y
  }

  /**
   * With an injective digest and ips free of `|` (as remote addresses are), two requests get
   * the same device id exactly when they have the same ip and the same user agent.
   */
  lemma DeviceCidSeparatesDevices(digest: string -> string, a1: Option<string>, u1: Option<string>,
                                  a2: Option<string>, u2: Option<string>)
    requires Injective(digest)
    requires '|' !in OrEmpty(a1) && '|' !in OrEmpty(a2)
    ensures DeviceCid(digest, a1, u1) == DeviceCid(digest, a2, u2)
            <==> OrEmpty(a1) == OrEmpty(a2) && OrEmpty(u1) == OrEmpty(u2)
  {
    RawFingerprintInjective(OrEmpty(a1), OrEmpty(u1), OrEmpty(a2), OrEmpty(u2));
  }
}
