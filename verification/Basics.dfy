/** Small vocabulary shared by every model in this project. */
module Basics {

  datatype Option<+T> = None | Some(value: T)

  /** Number.MAX_SAFE_INTEGER. */
  const MAX_SAFE_INTEGER: int := 9007199254740991

  predicate SafeInteger(n: int) {
    -MAX_SAFE_INTEGER <= n <= MAX_SAFE_INTEGER
  }

  /** The identifier alphabet /^[A-Za-z0-9_-]{1,160}$/. */
  predicate SafeId(s: string) {
    1 <= |s| <= 160 && forall c <- s :: IdChar(c)
  }

  predicate IdChar(c: char) {
    'A' <= c <= 'Z' || 'a' <= c <= 'z' || '0' <= c <= '9' || c == '_' || c == '-'
  }

  /** The digest alphabet /^[0-9a-f]{64}$/. */
  predicate IsDigest(s: string) {
    |s| == 64 && forall c <- s :: '0' <= c <= '9' || 'a' <= c <= 'f'
  }

  predicate PlainId(s: string) {
    && 1 <= |s| <= 160
    && forall c <- s :: 'a' <= c <= 'z' || 'A' <= c <= 'Z' || '0' <= c <= '9' || c == '-' || c == '_'
  }

  predicate PlainDigest(s: string) {
    |s| == 64 && forall c <- s :: '0' <= c <= '9' || 'a' <= c <= 'f'
  }

  lemma IdRules(s: string)
    ensures SafeId(s) <==> PlainId(s)
    ensures IsDigest(s) <==> PlainDigest(s)
  {
  }

  /** A set without members is the empty one. */
  lemma Inhabited(ids: set<int>)
    ensures (forall id: int :: id !in ids) ==> ids == {}
  {
    if forall id: int :: id !in ids {
      assert ids == {};
    }
  }
}
