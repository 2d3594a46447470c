/** Request identities never collide
    (src/envresearch/connectors/acquisition_store.py, lines 292-302). */
module RequestKeys {

  predicate IsSafeCharacter(c: char) {
    'a' <= c <= 'z' || 'A' <= c <= 'Z' || '0' <= c <= '9' || c in "-_."
  }

  predicate IsSafeId(s: string) {
    0 < |s| <= 128 && s != "." && s != ".." && forall i | 0 <= i < |s| :: IsSafeCharacter(s[i])
  }

  /** The text whose digest names the lock, state and tombstone files. */
  function Identity(connectorId: string, requestId: string): string {
    connectorId + ['\0'] + requestId
  }

  /** The separator is the first NUL, since safe ids contain none. */
  lemma FirstNul(c: string, r: string)
    requires IsSafeId(c)
    ensures Identity(c, r)[|c|] == '\0'
    ensures forall k | 0 <= k < |c| :: Identity(c, r)[k] != '\0'
  {
    forall k | 0 <= k < |c| ensures Identity(c, r)[k] != '\0' {
      assert IsSafeCharacter(c[k]);
    }
  }

  /** Two safe pairs share an identity only if they are the same pair. */
  lemma IdentityInjective(c: string, r: string, d: string, s: string)
    requires IsSafeId(c) && IsSafeId(r) && IsSafeId(d) && IsSafeId(s)
    requires Identity(c, r) == Identity(d, s)
    ensures c == d && r == s
  {
    FirstNul(c, r);
    FirstNul(d, s);
    var text := Identity(c, r);
    assert |c| == |d|;
    assert c == text[..|c|] && d == text[..|c|];
    assert r == text[|c| + 1..] && s == text[|c| + 1..];
  }
}
