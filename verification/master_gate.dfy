/** The master passphrase check that guards the vault
    (`setup_master_password`, `verify_master_password`). The passphrase is
    never stored, only its digest; the master file holds that digest. */
module MasterGate {
  import opened Wrappers
  import opened Text
  import opened Crypto

  datatype GateError =
    | Mismatch     // the two setup answers differ
    | NoMasterSet  // the setup answers ran out before a matching pair
    | Denied       // "Incorrect master password!": the program exits

  /** One setup round's two answers as `input().strip()` returns them. */
  type RoundAnswers = (string, string)

  predicate Matching(a: RoundAnswers) {
    a.0 == a.1
  }

  predicate NoneMatch(rounds: seq<RoundAnswers>) {
    forall j | 0 <= j < |rounds| :: !Matching(rounds[j])
  }

  /** The answers of each setup round, each stripped as it is read. */
  function ReadRounds(typed: seq<(string, string)>): (rounds: seq<RoundAnswers>)
    ensures |rounds| == |typed|
    ensures forall i | 0 <= i < |typed| ::
      rounds[i] == (Strip(typed[i].0), Strip(typed[i].1))
  {
    seq(|typed|, i requires 0 <= i < |typed| => (Strip(typed[i].0), Strip(typed[i].1)))
  }

  /** One round of setup on the answers as typed: the digest to write,
      produced only when the two stripped answers agree. */
  function Setup(hash: Hasher, first: string, second: string): (r: Result<HexDigest, GateError>)
    ensures r.Success? <==> Strip(first) == Strip(second)
    ensures r.Failure? ==> r.error == Mismatch
    ensures r.Success? ==> r.value == hash(Strip(second))
  {
    if Strip(first) != Strip(second) then Failure(Mismatch) else Success(hash(Strip(first)))
  }

  /** Setup asks again after every mismatch. Given the successive pairs of
      answers, it writes the digest of the first matching pair; nothing is
      written while the answers disagree. */
  function SetupRounds(hash: Hasher, rounds: seq<RoundAnswers>): (r: Result<HexDigest, GateError>)
    ensures r.Success? <==> exists i | 0 <= i < |rounds| :: Matching(rounds[i])
    ensures r.Failure? ==> r.error == NoMasterSet
    ensures r.Success? ==> exists i | 0 <= i < |rounds| ::
      Matching(rounds[i]) && r.value == hash(rounds[i].0) && NoneMatch(rounds[..i])
  {
    if rounds == [] then Failure(NoMasterSet)
    else if Matching(rounds[0]) then
      assert NoneMatch(rounds[..0]);
      Success(hash(rounds[0].0))
    else
        var r := SetupRounds(hash, rounds[1..]);
        assert r.Success? <==> exists i | 0 <= i < |rounds| :: Matching(rounds[i]) by {
          if exists i | 0 <= i < |rounds| :: Matching(rounds[i]) {
            var i :| 0 <= i < |rounds| && Matching(rounds[i]);
            assert rounds[1..][i - 1] == rounds[i];
          }
          if r.Success? {
            var i :| 0 <= i < |rounds[1..]| && Matching(rounds[1..][i]);
            assert rounds[1..][i] == rounds[i + 1];
          }
        }
        assert r.Success? ==> exists i | 0 <= i < |rounds| ::
          Matching(rounds[i]) && r.value == hash(rounds[i].0) && NoneMatch(rounds[..i])
        by {
          if r.Success? {
            var i :| 0 <= i < |rounds[1..]| && Matching(rounds[1..][i]) &&
              r.value == hash(rounds[1..][i].0) && NoneMatch(rounds[1..][..i]);
            assert rounds[i + 1] == rounds[1..][i];
            assert rounds[..i + 1] == [rounds[0]] + rounds[1..][..i];
            assert NoneMatch(rounds[..i + 1]);
          }
        }
        r
  }

  /** A single round of `SetupRounds` on the answers as typed is `Setup`. */
  lemma SetupIsOneRound(hash: Hasher, first: string, second: string)
    ensures SetupRounds(hash, ReadRounds([(first, second)])) ==
      (if Setup(hash, first, second).Success? then Setup(hash, first, second)
       else Failure(NoMasterSet))
  {
    var rounds := ReadRounds([(first, second)]);
    assert rounds == [(Strip(first), Strip(second))];
  }

  /** Only one round can be the first whose answers agree. */
  lemma FirstMatchUnique(rounds: seq<RoundAnswers>, i: nat, m: nat)
    requires i < |rounds| && Matching(rounds[i]) && NoneMatch(rounds[..i])
    requires m < |rounds| && Matching(rounds[m]) && NoneMatch(rounds[..m])
    ensures i == m
  {
    forall j | 0 <= j < i
      ensures !Matching(rounds[j])
    {
      assert rounds[..i][j] == rounds[j];
    }
    forall j | 0 <= j < m
      ensures !Matching(rounds[j])
    {
      assert rounds[..m][j] == rounds[j];
    }
  }

  /** The master file after the check, and whether the vault may be opened. */
  datatype Gate = Gate(masterFile: Option<string>, access: Result<(), GateError>)

  /** `verify_master_password`: set the passphrase up first when there is no
      master file, then grant access only when the digest of the stripped
      entry equals the stripped file contents. */
  function Verify(hash: Hasher, masterFile: Option<string>, rounds: seq<(string, string)>,
                  entered: string): (r: Gate)
    ensures r.access.Success? <==>
      r.masterFile.Some? && hash(Strip(entered)) == Strip(r.masterFile.value)
    ensures masterFile.Some? ==> r.masterFile == masterFile
    ensures masterFile.None? && r.masterFile.Some? ==> SetupRounds(hash, ReadRounds(rounds)).Success?
    ensures r.access.Failure? ==>
      r.access.error == (if r.masterFile.None? then NoMasterSet else Denied)
  {
    var file := if masterFile.Some? then masterFile else
      match SetupRounds(hash, ReadRounds(rounds))
      case Success(d) => Some(d)
      case Failure(_) => None;
    match file
    case None => Gate(None, Failure(NoMasterSet))
    case Some(contents) =>
      Gate(file, if hash(Strip(entered)) == Strip(contents) then Success(()) else Failure(Denied))
  }

  /** After a successful setup, the check grants access exactly to
      passphrases with the same digest as the one set up, and in particular
      to the same passphrase typed with any surrounding whitespace. */
  lemma SetupThenVerify(hash: Hasher, first: string, second: string, entered: string)
    requires Strip(first) == Strip(second)
    ensures Setup(hash, first, second).Success?
    ensures var g := Verify(hash, Some(Setup(hash, first, second).value), [], entered);
      g.access.Success? <==> hash(Strip(entered)) == hash(Strip(first))
    ensures Strip(entered) == Strip(first) ==>
      Verify(hash, Some(Setup(hash, first, second).value), [], entered).access.Success?
  {
    DigestSurvivesStrip(hash(Strip(first)));
  }

  /** On the first run the check sets the passphrase up from the first
      round whose answers agree, then grants access exactly when the entry
      hashes like that passphrase. */
  lemma FirstRunVerify(hash: Hasher, typed: seq<(string, string)>, entered: string, i: nat)
    requires i < |typed| && Matching(ReadRounds(typed)[i])
    requires NoneMatch(ReadRounds(typed)[..i])
    ensures var g := Verify(hash, None, typed, entered);
      g.masterFile == Some(hash(Strip(typed[i].0))) &&
      (g.access.Success? <==> hash(Strip(entered)) == hash(Strip(typed[i].0)))
  {
    var rounds := ReadRounds(typed);
    var d := SetupRounds(hash, rounds).value;
    var m :| 0 <= m < |rounds| && Matching(rounds[m]) && d == hash(rounds[m].0) &&
      NoneMatch(rounds[..m]);
    FirstMatchUnique(rounds, i, m);
    DigestSurvivesStrip(d);
  }
}
