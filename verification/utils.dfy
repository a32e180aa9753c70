/** `GenerateRandom`, which builds the names of anonymous top-level functions. */
module Utils {

  /** The characters `GenerateRandom` draws from: digits, upper-case and lower-case letters. */
  const Alphanum: string := Digits + Upper + Lower
  const Digits: string := "0123456789"
  const Upper: string := "ABCDEFGHIJKLMNOPQRSTUVWXYZ"
  const Lower: string := "abcdefghijklmnopqrstuvwxyz"

  predicate IsAlphanumeric(c: char) {
    '0' <= c <= '9' || 'A' <= c <= 'Z' || 'a' <= c <= 'z'
  }

  /**
   * The string `GenerateRandom(len)` returns: character `i` is
   * `Alphanum[rand() % 62]` for the `(from + i)`-th call of `rand()`, whose
   * results `rand` lists.
   */
  function RandomString(len: nat, rand: nat -> nat, from: nat): (r: string)
    ensures |r| == len
    ensures forall i | 0 <= i < len :: IsAlphanumeric(r[i])
  {
    AlphanumIsAlphanumeric();
    seq(len, i requires 0 <= i < len => Alphanum[rand(from + i) % |Alphanum|])
  }

  /** `GenerateRandom(len)`: fill a string of `len` characters, one `rand()` call per character. */
  method GenerateRandom(len: nat, rand: nat -> nat, from: nat) returns (res: string)
    ensures res == RandomString(len, rand, from)
  {
    res := seq(len, _ => ' ');
    for i := 0 to len
      invariant |res| == len
      invariant forall k | 0 <= k < i :: res[k] == Alphanum[rand(from + k) % |Alphanum|]
    {
      res := res[i := Alphanum[rand(from + i) % |Alphanum|]];
    }
  }

  lemma AlphanumIsAlphanumeric()
    ensures |Alphanum| == 62
    ensures forall k | 0 <= k < |Alphanum| :: IsAlphanumeric(Alphanum[k])
  {
    assert forall k | 0 <= k < |Digits| :: Digits[k] == '0' + k as char;
    assert forall k | 0 <= k < |Upper| :: Upper[k] == 'A' + k as char;
    assert forall k | 0 <= k < |Lower| :: Lower[k] == 'a' + k as char;
    forall k | 0 <= k < |Alphanum|
      ensures IsAlphanumeric(Alphanum[k])
    {
      if k < 10 {
        assert Alphanum[k] == Digits[k];
      } else if k < 36 {
        assert Alphanum[k] == Upper[k - 10];
      } else {
        assert Alphanum[k] == Lower[k - 36];
      }
    }
  }
}
