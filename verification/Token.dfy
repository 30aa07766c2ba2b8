// auth/password/token.go: single-use tokens. SHA-256 is a parameter.
module Token {
  import opened Wrappers
  import opened Base64

  type Sha256 = string -> seq<Byte>

  datatype Generated = Generated(plaintext: string, hash: seq<Byte>)

  function GenerateToken(sha: Sha256, raw: seq<Byte>): Generated {
    var plaintext := Encode(UrlSafe, raw);
    Generated(plaintext, sha(plaintext))
  }

  predicate UrlSafeLetter(c: char) {
    'A' <= c <= 'Z' || 'a' <= c <= 'z' || '0' <= c <= '9' || c == '-' || c == '_'
  }

  // The plaintext has ceil(4n/3) letters of the URL-safe alphabet and decodes back to the random bytes.
  lemma TokenRoundTrip(sha: Sha256, raw: seq<Byte>)
    ensures var t := GenerateToken(sha, raw).plaintext;
      && |t| == (4 * |raw| + 2) / 3
      && (forall c | c in t :: UrlSafeLetter(c))
      && Decode(UrlSafe, t) == Some(raw) && GenerateToken(sha, raw).hash == sha(t)
  {
    EncodeShape(UrlSafe, raw);
    RoundTrip(UrlSafe, raw);
  }

  // Tokens made from different random bytes are different.
  lemma TokensInjective(sha: Sha256, raw: seq<Byte>, other: seq<Byte>)
    requires GenerateToken(sha, raw).plaintext == GenerateToken(sha, other).plaintext
    ensures raw == other
  {
    RoundTrip(UrlSafe, raw);
    RoundTrip(UrlSafe, other);
  }
}
