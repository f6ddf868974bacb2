/** The string keys under which the scheduler remembers transfers it has asked for:
    "<sha1>:<ip>:<port>". Builders are looked up in them by prefix and by suffix only. */
module PendingKeys {

  /** A sha1 is 40 hexadecimal digits; all that matters is that it has no colon. */
  predicate Plain(sha1: string) { ':' !in sha1 }

  function PendingKey(sha1: string, addr: string): string {
    sha1 + ":" + addr
  }

  predicate EndsWith(s: string, suffix: string) {
    |suffix| <= |s| && s[|s| - |suffix|..] == suffix
  }

  lemma PrefixFindsSha(sha1: string, addr: string, wanted: string)
    requires Plain(sha1) && Plain(wanted)
    ensures wanted + ":" <= PendingKey(sha1, addr) <==> wanted == sha1
  {
    var key, prefix := PendingKey(sha1, addr), wanted + ":";
    assert key[|sha1|] == ':';
    assert prefix[|wanted|] == ':';
    assert |wanted| < |sha1| ==> key[|wanted|] == sha1[|wanted|] != ':';
    assert |sha1| < |wanted| ==> prefix[|sha1|] == wanted[|sha1|] != ':';
    if prefix <= key {
      assert |wanted| == |sha1|;
      assert wanted == prefix[..|wanted|] == key[..|wanted|] == sha1;
    }
    if wanted == sha1 { assert key == prefix + addr; }
  }

  lemma KeyInjective(sha1: string, addr: string, sha2: string, addr2: string)
    requires Plain(sha1) && Plain(sha2)
    ensures PendingKey(sha1, addr) == PendingKey(sha2, addr2) <==> sha1 == sha2 && addr == addr2
  {
    var key := PendingKey(sha1, addr);
    if key == PendingKey(sha2, addr2) {
      assert PendingKey(sha2, addr2) == sha2 + ":" + addr2;
      assert sha2 + ":" <= key;
      PrefixFindsSha(sha1, addr, sha2);
      assert addr == key[|sha1| + 1..] == addr2;
    }
  }

  /** Suffix search also finds a builder whose address merely ends in the wanted one, which an
      IPv6 address can do. */
  lemma SuffixFindsAddress(sha1: string, addr: string, wanted: string)
    requires Plain(sha1)
    ensures EndsWith(PendingKey(sha1, addr), ":" + wanted) <==> wanted == addr || EndsWith(addr, ":" + wanted)
  {
    var key, suffix := PendingKey(sha1, addr), ":" + wanted;
    assert suffix[0] == ':' && suffix[1..] == wanted;
    if |suffix| <= |addr| {
      assert key[|key| - |suffix|..] == addr[|addr| - |suffix|..];
    } else if |wanted| == |addr| {
      assert key[|key| - |suffix|..] == ":" + addr;
    } else if |suffix| <= |key| {
      var at := |key| - |suffix|;
      assert key[at..][0] == key[at] == sha1[at];
    }
  }
}
