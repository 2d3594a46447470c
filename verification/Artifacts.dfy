/** Content-addressed references (src/envresearch/models/artifact.py lines 30-45). */
module Artifacts {
  datatype ArtifactRef = ArtifactRef(artifactId: string, version: int, contentHash: string) {
    /** What the record's own validators require. */
    predicate Valid() {
      version >= 1 && HexDigest(contentHash)
    }
  }

  /** A 64-character lowercase hexadecimal digest. */
  predicate HexDigest(s: string) {
    |s| == 64 && forall i | 0 <= i < |s| :: s[i] in "0123456789abcdef"
  }
}
