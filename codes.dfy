/**
  Session codes: fixed-length strings over a single-case alphanumeric alphabet,
  drawn one character at a time from a random source.
 */
module Codes {

  /** The 36 symbols a session code is drawn from. */
  const Alphabet: string := "abcdefghijklmnopqrstuvwxyz0123456789"

  /** The length of the codes the service generates. */
  const CodeLength: nat := 4

  /** A string of `length` characters, each drawn from the alphabet. */
  predicate IsCode(s: string, length: nat)
  {
    |s| == length && forall i :: 0 <= i < |s| ==> s[i] in Alphabet
  }

  /**
    The random source. The values it yields are an injected oracle: the k-th
    draw is `oracle(k)` reduced into the requested bound.
   */
  class SecureRandom {
    const oracle: nat -> nat
    var drawn: nat

    constructor (oracle: nat -> nat)
      ensures this.oracle == oracle && drawn == 0
    {
      this.oracle := oracle;
      drawn := 0;
    }

    /** nextInt(bound): the next draw, in [0, bound). */
    method NextInt(bound: nat) returns (r: nat)
      requires bound > 0
      modifies this
      ensures r < bound && r == oracle(old(drawn)) % bound
      ensures drawn == old(drawn) + 1
    {
      r := oracle(drawn) % bound;
      drawn := drawn + 1;
    }
  }

  /** The code of `length` characters built from the draws numbered start, start + 1, ... */
  function CodeFrom(oracle: nat -> nat, start: nat, length: nat): (code: string)
    ensures |code| == length
  {
    if length == 0 then []
    else CodeFrom(oracle, start, length - 1) + [Alphabet[oracle(start + length - 1) % |Alphabet|]]
  }

  /** The i-th character of a code is the alphabet symbol selected by the i-th draw. */
  lemma {:induction false} CodeFromCharacters(oracle: nat -> nat, start: nat, length: nat)
    ensures |CodeFrom(oracle, start, length)| == length
    ensures forall i :: 0 <= i < length ==>
      CodeFrom(oracle, start, length)[i] == Alphabet[oracle(start + i) % |Alphabet|]
  {
    if length > 0 {
      CodeFromCharacters(oracle, start, length - 1);
    }
  }

  /** Every generated code has the requested length and uses only alphabet symbols. */
  lemma CodeFromIsCode(oracle: nat -> nat, start: nat, length: nat)
    ensures IsCode(CodeFrom(oracle, start, length), length)
  {
    CodeFromCharacters(oracle, start, length);
  }

  /** generateCode: draws `length` symbols from the random source. */
  method GenerateCode(random: SecureRandom, length: nat) returns (code: string)
    modifies random
    ensures code == CodeFrom(random.oracle, old(random.drawn), length)
    ensures IsCode(code, length)
    ensures random.drawn == old(random.drawn) + length
  {
    var sb := "";
    for i := 0 to length
      invariant random.drawn == old(random.drawn) + i
      invariant sb == CodeFrom(random.oracle, old(random.drawn), i)
    {
      var idx := random.NextInt(|Alphabet|);
      sb := sb + [Alphabet[idx]];
    }
    code := sb;
    CodeFromIsCode(random.oracle, old(random.drawn), length);
  }
}
