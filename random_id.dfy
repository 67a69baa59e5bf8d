/**
 * `random_id`: the 24-character identifier given to every new user and note.
 * Each of the 24 rounds draws a coin from `0..2`; on 0 it appends a letter
 * drawn from `WORDS`, on 1 the decimal text of a digit drawn from `0..10`.
 * The random number generator is not modelled: its draws are an input.
 */
module RandomIds {
  import opened Text

  /** `WORDS`. */
  const Words: string := "abcdefghijklmnopqrstuvwxyz"

  /** The number of rounds of the loop, hence the length of every id. */
  const IdLength: nat := 24

  /** The values `gen_range` returned in one round: the coin, then the letter index or the digit. */
  datatype Draw = Draw(coin: int, rando: int)

  /** What `gen_range(0..2)` and then `gen_range(0..WORDS.len())` or `gen_range(0..10)` can return. */
  predicate IsDraw(d: Draw) {
    || (d.coin == 0 && 0 <= d.rando < |Words|)
    || (d.coin == 1 && 0 <= d.rando < 10)
  }

  predicate IsIdChar(c: char) {
    IsLowerAsciiLetter(c) || IsDigit(c)
  }

  predicate IsId(s: string) {
    |s| == IdLength && forall i :: 0 <= i < |s| ==> IsIdChar(s[i])
  }

  /**
   * The text one round appends: exactly one character, a lower-case letter or
   * a digit, so the fallback `'a'` is never needed.
   */
  function Piece(d: Draw): (r: string)
    requires IsDraw(d)
    ensures |r| == 1 && IsIdChar(r[0])
  {
    if d.coin == 0 then
      assert forall i :: 0 <= i < |Words| ==> IsLowerAsciiLetter(Words[i]);
      [Words[d.rando]]
    else
      DecimalString(d.rando)
  }

  /** The text a sequence of rounds builds: one character from `[a-z0-9]` per round. */
  function IdFromDraws(draws: seq<Draw>): (r: string)
    requires forall k :: 0 <= k < |draws| ==> IsDraw(draws[k])
    ensures |r| == |draws|
    ensures forall i :: 0 <= i < |r| ==> IsIdChar(r[i])
  {
    if draws == [] then [] else IdFromDraws(draws[..|draws| - 1]) + Piece(draws[|draws| - 1])
  }

  /**
   * `random_id`. `draws` holds the generator's answers, round by round. The
   * fallback `'a'` is kept as in the source; the postcondition, stated with
   * `Words[rando]`, shows it is never taken.
   */
  method RandomId(draws: seq<Draw>) returns (id: string)
    requires |draws| == IdLength
    requires forall k :: 0 <= k < |draws| ==> IsDraw(draws[k])
    ensures id == IdFromDraws(draws)
    ensures IsId(id)
  {
    id := [];
    for i := 0 to IdLength
      invariant id == IdFromDraws(draws[..i])
      invariant |id| == i
    {
      var randomNum := draws[i].coin;
      var rando := draws[i].rando;
      if randomNum == 0 {
        var chr := if rando < |Words| then Words[rando] else 'a';
        id := id + [chr];
      } else if randomNum == 1 {
        id := id + DecimalString(rando);
      }
      assert draws[..i + 1][..i] == draws[..i];
    }
    assert draws[..IdLength] == draws;
  }

  /** The round that appends the id character `c`. */
  function DrawFor(c: char): (d: Draw)
    requires IsIdChar(c)
    ensures IsDraw(d) && Piece(d) == [c]
  {
    if IsDigit(c) then
      Draw(1, c as int - '0' as int)
    else
      assert Words[c as int - 'a' as int] == c;
      Draw(0, c as int - 'a' as int)
  }

  /** Draws that rebuild a given id: one per character. */
  function DrawsFor(s: string): (draws: seq<Draw>)
    requires forall i :: 0 <= i < |s| ==> IsIdChar(s[i])
    ensures |draws| == |s|
    ensures forall k :: 0 <= k < |draws| ==> IsDraw(draws[k])
  {
    seq(|s|, i requires 0 <= i < |s| => DrawFor(s[i]))
  }

  /** Every string over `[a-z0-9]` is what some run of the rounds builds; with 24 rounds, every such string of length 24 is a possible id. */
  lemma {:induction false} EveryIdIsReachable(s: string)
    requires forall i :: 0 <= i < |s| ==> IsIdChar(s[i])
    ensures IdFromDraws(DrawsFor(s)) == s
  {
    if s != [] {
      var init := s[..|s| - 1];
      EveryIdIsReachable(init);
      assert DrawsFor(s)[..|s| - 1] == DrawsFor(init);
    }
  }
}
