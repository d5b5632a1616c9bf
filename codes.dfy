/// Room codes: fixed-length words over the upper-case alphabet, spelled from
/// random letter draws, and the first drawn word that no live room uses.
module Codes {
  import opened ChatTypes

  /** `string.ascii_uppercase`, the alphabet the letters are drawn from. */
  const Uppercase: string := "ABCDEFGHIJKLMNOPQRSTUVWXYZ"

  /** The length of every code the join form allocates. */
  const CodeLength: nat := 4

  predicate IsUpper(c: char) {
    'A' <= c <= 'Z'
  }

  /** A code of the given length made of upper-case letters only. */
  predicate IsCode(code: string, length: nat) {
    |code| == length && forall j :: 0 <= j < |code| ==> IsUpper(code[j])
  }

  /** Letter draws: each one an index into the alphabet, as `random.choice`
      makes them. */
  predicate ValidPicks(picks: seq<nat>) {
    forall j :: 0 <= j < |picks| ==> picks[j] < |Uppercase|
  }

  /** The attempts of the generator: each one exactly `length` letter draws. */
  predicate AreDraws(attempts: seq<seq<nat>>, length: nat) {
    forall i :: 0 <= i < |attempts| ==> |attempts[i]| == length && ValidPicks(attempts[i])
  }

  lemma UppercaseLetters()
    ensures |Uppercase| == 26
    ensures forall k :: 0 <= k < |Uppercase| ==> IsUpper(Uppercase[k])
  {
  }

  /** The word that repeated `code += random.choice(ascii_uppercase)` builds
      from the given draws: one letter per draw, in draw order. */
  function Spell(picks: seq<nat>): (code: string)
    requires ValidPicks(picks)
    ensures |code| == |picks|
    ensures forall j :: 0 <= j < |picks| ==> code[j] == Uppercase[picks[j]]
    ensures IsCode(code, |picks|)
  {
    UppercaseLetters();
    if picks == [] then ""
    else Spell(picks[..|picks| - 1]) + [Uppercase[picks[|picks| - 1]]]
  }

  /** The first attempt whose word is not a live code, if there is one. */
  function FirstFresh(attempts: seq<seq<nat>>, live: set<string>): (r: Option<string>)
    requires forall i :: 0 <= i < |attempts| ==> ValidPicks(attempts[i])
    ensures r.None? <==> forall i :: 0 <= i < |attempts| ==> Spell(attempts[i]) in live
    ensures r.Some? ==> r.value !in live
    ensures r.Some? ==> exists i :: 0 <= i < |attempts| && r.value == Spell(attempts[i])
                                    && forall j :: 0 <= j < i ==> Spell(attempts[j]) in live
  {
    if attempts == [] then None
    else if Spell(attempts[0]) !in live then
      Some(Spell(attempts[0]))
    else
      var r := FirstFresh(attempts[1..], live);
      assert forall i :: 1 <= i < |attempts| ==> attempts[i] == attempts[1..][i - 1];
      if r.Some? then
        var i :| 0 <= i < |attempts[1..]| && r.value == Spell(attempts[1..][i])
                 && forall j :: 0 <= j < i ==> Spell(attempts[1..][j]) in live;
        assert forall j :: 0 <= j < i + 1 ==> Spell(attempts[j]) in live by {
          forall j | 0 <= j < i + 1 ensures Spell(attempts[j]) in live {
            if j > 0 { assert attempts[j] == attempts[1..][j - 1]; }
          }
        }
        r
      else r
  }
}
