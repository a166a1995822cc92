/** A byte source that delivers as it likes; a `char` stands for one byte. */
module IoStream {

  class InputStream {
    var rest: string
    const failsAtEnd: bool

    constructor (s: string, fails: bool)
      ensures rest == s && failsAtEnd == fails
    {
      rest, failsAtEnd := s, fails;
    }

    /** At least one byte and at most `sz` of them, to `dst` from `at` on; at the end zero, or an error. */
    method Read(dst: array<char>, at: nat, sz: nat) returns (n: int)
      requires 0 < sz && at + sz <= dst.Length
      modifies this`rest, dst
      ensures old(rest) == "" ==> rest == "" && dst[..] == old(dst[..]) && n == if failsAtEnd then -1 else 0
      ensures old(rest) != "" ==>
                && 1 <= n <= sz && n <= |old(rest)| && rest == old(rest)[n..]
                && dst[at..at + n] == old(rest)[..n] && dst[..at] == old(dst[..at])
    {
      if rest == "" {
        return if failsAtEnd then -1 else 0;
      }
      n :| 1 <= n <= sz && n <= |rest|;
      forall i | 0 <= i < n {
        dst[at + i] := rest[i];
      }
      rest := rest[n..];
    }
  }
}
