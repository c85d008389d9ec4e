/** One run of the program (`main`): the master passphrase is checked
    first, and only when it is accepted are the menu requests served, one
    after another, each reading the vault file and writing it back when it
    changes the vault. */
module Session {
  import opened Wrappers
  import opened Text
  import opened Crypto
  import opened OrderedMap
  import opened Accounts
  import opened MasterGate

  /** A menu choice together with the answers to its prompts. */
  datatype Request =
    | AddRequest(service: string, username: string, answers: PasswordAnswers, nonce: Nonce)
    | GetRequest(service: string)
    | ListRequest
    | DeleteRequest(service: string, confirm: string)
    | UpdateRequest(service: string, answers: PasswordAnswers, nonce: Nonce)

  /** What a request shows the user. */
  datatype Reply =
    | Saved
    | Shown(credentials: Credentials)
    | Listed(services: seq<string>)
    | Refused(error: AccountError)

  predicate EndsRun(reply: Reply) {
    reply.Refused? && Fatal(reply.error)
  }

  /** `load_vault`: a missing vault file reads as the empty vault. */
  function Load(file: Option<Vault>): (v: Vault)
    ensures file.None? ==> AsMap(v) == map[] && ListAccounts(v) == []
    ensures file.Some? ==> v == file.value
  {
    if file.None? then [] else file.value
  }

  /** The vault file after a request, and the request's reply. */
  datatype Outcome = Outcome(file: Option<Vault>, reply: Reply)

  /** Serve one request. The file is written only when the request changed
      the vault; a refused request, a lookup and a listing leave it as it
      was. */
  function Step(c: Cipher, key: Key, file: Option<Vault>, req: Request): (r: Outcome)
    ensures r.file != file ==> r.reply == Saved
    ensures r.reply == Saved ==> r.file.Some? && !req.GetRequest? && !req.ListRequest?
    ensures r.reply.Refused? || req.GetRequest? || req.ListRequest? ==> r.file == file
    ensures req.ListRequest? ==> r.reply == Listed(Keys(Load(file)))
    ensures req.AddRequest? ==>
      var a := AddAccount(Load(file), c, key, req.nonce, req.service, req.username, req.answers);
      (r.reply == Saved <==> a.Success?) && (a.Success? ==> r.file == Some(a.value)) &&
      (a.Failure? ==> r.reply == Refused(a.error))
    ensures req.GetRequest? ==>
      var g := GetAccount(Load(file), c, key, req.service);
      (r.reply.Shown? <==> g.Success?) && (g.Success? ==> r.reply.credentials == g.value) &&
      (g.Failure? ==> r.reply == Refused(g.error))
    ensures req.DeleteRequest? ==>
      var d := DeleteAccount(Load(file), req.service, req.confirm);
      (r.reply == Saved <==> d.Success?) && (d.Success? ==> r.file == Some(d.value)) &&
      (d.Failure? ==> r.reply == Refused(d.error))
    ensures req.UpdateRequest? ==>
      var u := UpdatePassword(Load(file), c, key, req.nonce, req.service, req.answers);
      (r.reply == Saved <==> u.Success?) && (u.Success? ==> r.file == Some(u.value)) &&
      (u.Failure? ==> r.reply == Refused(u.error))
  {
    var v := Load(file);
    match req
    case AddRequest(s, u, a, n) => Save(file, AddAccount(v, c, key, n, s, u, a))
    case GetRequest(s) =>
      Outcome(file, match GetAccount(v, c, key, s)
        case Success(cr) => Shown(cr)
        case Failure(e) => Refused(e))
    case ListRequest => Outcome(file, Listed(ListAccounts(v)))
    case DeleteRequest(s, y) => Save(file, DeleteAccount(v, s, y))
    case UpdateRequest(s, a, n) => Save(file, UpdatePassword(v, c, key, n, s, a))
  }

  /** Storing an account through the menu and then looking it up under any
      spelling of its name shows the stripped username and the chosen
      password. */
  lemma StepAddThenGet(c: Cipher, key: Key, file: Option<Vault>, nonce: Nonce, service: string,
                       username: string, answers: PasswordAnswers, query: string)
    requires RoundTrips(c)
    requires ChosenPassword(answers).Some?
    requires Normalize(query) == Normalize(service)
    ensures var o := Step(c, key, file, AddRequest(service, username, answers, nonce));
      o.reply == Saved &&
      Step(c, key, o.file, GetRequest(query)).reply ==
        Shown(Credentials(Strip(username), ChosenPassword(answers).value))
  {
    AddThenGet(Load(file), c, key, nonce, service, username, answers, query);
  }

  /** A confirmed deletion through the menu makes a later lookup of the
      same service, under any spelling, report it as not found. */
  lemma StepDeleteThenGet(c: Cipher, key: Key, file: Option<Vault>, service: string,
                          confirm: string, query: string)
    requires Normalize(service) in AsMap(Load(file)) && Answers(confirm, "y")
    requires Normalize(query) == Normalize(service)
    ensures var o := Step(c, key, file, DeleteRequest(service, confirm));
      o.reply == Saved && Step(c, key, o.file, GetRequest(query)).reply == Refused(NotFound)
  {
    DeleteThenGet(Load(file), c, key, service, confirm, query);
  }

  /** `Step` with the cipher and key of this run fixed. */
  function Stepper(c: Cipher, key: Key): (Option<Vault>, Request) -> Outcome {
    (f, q) => Step(c, key, f, q)
  }

  /** `save_vault` after a change; nothing is written after a failure. */
  function Save(file: Option<Vault>, r: Result<Vault, AccountError>): Outcome {
    match r
    case Success(v) => Outcome(Some(v), Saved)
    case Failure(e) => Outcome(file, Refused(e))
  }

  /** The menu loop: the vault file after serving the requests in order
      with `step`, and their replies. An exception that nothing catches
      ends the run at the request that raised it. */
  function Serve(step: (Option<Vault>, Request) -> Outcome, file: Option<Vault>, reqs: seq<Request>)
    : (r: (Option<Vault>, seq<Reply>))
    ensures |r.1| <= |reqs|
    ensures |r.1| < |reqs| ==> r.1 != [] && EndsRun(r.1[|r.1| - 1])
    ensures forall i | 0 <= i < |r.1| - 1 :: !EndsRun(r.1[i])
    ensures reqs != [] ==> |r.1| > 0 && r.1[0] == step(file, reqs[0]).reply
    decreases |reqs|
  {
    if reqs == [] then (file, [])
    else
      var o := step(file, reqs[0]);
      if EndsRun(o.reply) then (o.file, [o.reply])
      else
        var rest := Serve(step, o.file, reqs[1..]);
        (rest.0, [o.reply] + rest.1)
  }

  /** Everything a run leaves behind. */
  datatype RunEnd = RunEnd(
    masterFile: Option<string>,
    vaultFile: Option<Vault>,
    replies: seq<Reply>,
    access: Result<(), GateError>)

  /** `main`: check the master passphrase, then serve the requests. A
      refused passphrase ends the run before any request is served, so the
      vault file is neither read nor written. */
  function Run(hash: Hasher, c: Cipher, key: Key, masterFile: Option<string>,
               setupAnswers: seq<(string, string)>, entered: string,
               vaultFile: Option<Vault>, reqs: seq<Request>): (r: RunEnd)
    ensures r.access.Success? <==>
      r.masterFile.Some? && hash(Strip(entered)) == Strip(r.masterFile.value)
    ensures r.access.Failure? ==> r.vaultFile == vaultFile && r.replies == []
    ensures masterFile.Some? ==> r.masterFile == masterFile
    ensures r.access.Success? ==> (r.vaultFile, r.replies) == Serve(Stepper(c, key), vaultFile, reqs)
    ensures var g := Verify(hash, masterFile, setupAnswers, entered);
      r.masterFile == g.masterFile && r.access == g.access
  {
    var g := Verify(hash, masterFile, setupAnswers, entered);
    if g.access.Failure? then RunEnd(g.masterFile, vaultFile, [], g.access)
    else
      var served := Serve(Stepper(c, key), vaultFile, reqs);
      RunEnd(g.masterFile, served.0, served.1, g.access)
  }

  /** A lookup, deletion or update naming a service the vault does not
      hold reports it as not found and leaves the vault file untouched. */
  lemma MissingServiceChangesNothing(c: Cipher, key: Key, file: Option<Vault>, req: Request)
    requires req.GetRequest? || req.DeleteRequest? || req.UpdateRequest?
    requires Normalize(req.service) !in AsMap(Load(file))
    ensures Step(c, key, file, req) == Outcome(file, Refused(NotFound))
  {
  }

  /** Each request keeps every stored service name in normal form. */
  lemma StepKeepsKeysNormalized(c: Cipher, key: Key, file: Option<Vault>, req: Request)
    requires NormalizedKeys(Load(file))
    ensures NormalizedKeys(Load(Step(c, key, file, req).file))
  {
    var v := Load(file);
    match req
    case AddRequest(s, u, a, n) => AddKeepsKeysNormalized(v, c, key, n, s, u, a);
    case GetRequest(_) =>
    case ListRequest =>
    case DeleteRequest(s, y) => DeleteKeepsKeysNormalized(v, s, y);
    case UpdateRequest(s, a, n) => UpdateKeepsKeysNormalized(v, c, key, n, s, a);
  }

  /** Every request through `step` keeps the stored names normalised. */
  ghost predicate KeepsKeysNormalized(step: (Option<Vault>, Request) -> Outcome) {
    forall f, q :: NormalizedKeys(Load(f)) ==> NormalizedKeys(Load(step(f, q).file))
  }

  lemma StepperKeepsKeysNormalized(c: Cipher, key: Key)
    ensures KeepsKeysNormalized(Stepper(c, key))
  {
    forall f, q | NormalizedKeys(Load(f))
      ensures NormalizedKeys(Load(Stepper(c, key)(f, q).file))
    {
      StepKeepsKeysNormalized(c, key, f, q);
    }
  }

  lemma {:induction false} ServeKeepsKeysNormalized(step: (Option<Vault>, Request) -> Outcome,
                                                    file: Option<Vault>, reqs: seq<Request>)
    requires KeepsKeysNormalized(step)
    requires NormalizedKeys(Load(file))
    ensures NormalizedKeys(Load(Serve(step, file, reqs).0))
    decreases |reqs|
  {
    if reqs != [] {
      var o := step(file, reqs[0]);
      if !EndsRun(o.reply) {
        ServeKeepsKeysNormalized(step, o.file, reqs[1..]);
      }
    }
  }

  /** Whatever a run serves, every stored service name stays in normal
      form, so one service is never stored under two spellings. */
  lemma RunKeepsKeysNormalized(hash: Hasher, c: Cipher, key: Key, masterFile: Option<string>,
                               setupAnswers: seq<(string, string)>, entered: string,
                               vaultFile: Option<Vault>, reqs: seq<Request>)
    requires NormalizedKeys(Load(vaultFile))
    ensures NormalizedKeys(Load(Run(hash, c, key, masterFile, setupAnswers, entered, vaultFile, reqs).vaultFile))
  {
    StepperKeepsKeysNormalized(c, key);
    ServeKeepsKeysNormalized(Stepper(c, key), vaultFile, reqs);
  }

  /** A first run whose setup answers never agree sets no passphrase,
      grants no access and serves nothing. */
  lemma FirstRunWithoutAgreementServesNothing(hash: Hasher, c: Cipher, key: Key,
                                              setupAnswers: seq<(string, string)>, entered: string,
                                              vaultFile: Option<Vault>, reqs: seq<Request>)
    requires NoneMatch(ReadRounds(setupAnswers))
    ensures var r := Run(hash, c, key, None, setupAnswers, entered, vaultFile, reqs);
      r.masterFile == None && r.access == Failure(NoMasterSet) &&
      r.vaultFile == vaultFile && r.replies == []
  {
    var rounds := ReadRounds(setupAnswers);
    assert !exists i | 0 <= i < |rounds| :: Matching(rounds[i]);
  }

  /** On a first run the passphrase set up is the first agreeing pair of
      answers, and the menu is served exactly when the entry hashes like it. */
  lemma FirstRunAccess(hash: Hasher, c: Cipher, key: Key, setupAnswers: seq<(string, string)>,
                       entered: string, vaultFile: Option<Vault>, reqs: seq<Request>, i: nat)
    requires i < |setupAnswers| && Matching(ReadRounds(setupAnswers)[i])
    requires NoneMatch(ReadRounds(setupAnswers)[..i])
    ensures var r := Run(hash, c, key, None, setupAnswers, entered, vaultFile, reqs);
      r.masterFile == Some(hash(Strip(setupAnswers[i].0))) &&
      (r.access.Success? <==> hash(Strip(entered)) == hash(Strip(setupAnswers[i].0)))
  {
    FirstRunVerify(hash, setupAnswers, entered, i);
  }

  /** A run whose passphrase does not hash to the stored digest is refused
      and serves nothing. */
  lemma WrongPassphraseServesNothing(hash: Hasher, c: Cipher, key: Key, passphrase: string,
                                     entered: string, vaultFile: Option<Vault>, reqs: seq<Request>)
    requires hash(Strip(entered)) != hash(Strip(passphrase))
    ensures var r := Run(hash, c, key, Some(hash(Strip(passphrase))), [], entered, vaultFile, reqs);
      r.access == Failure(Denied) && r.vaultFile == vaultFile && r.replies == []
  {
    DigestSurvivesStrip(hash(Strip(passphrase)));
  }

  /** The first run of the program, end to end: set the passphrase up,
      enter it, store a Gmail account, read it back under another spelling,
      list, delete and list again. */
  lemma FirstRunScenario(hash: Hasher, c: Cipher, key: Key)
    requires RoundTrips(c)
    ensures var r := Run(hash, c, key, None, [("pw1", "pw1")], "pw1", None,
      [AddRequest("Gmail", "a@b.com", PasswordAnswers("M", None, "Secr3t!"), 0),
       GetRequest("gmail"), ListRequest, DeleteRequest("gmail", "y"), ListRequest]);
      r.masterFile == Some(hash("pw1")) && r.access.Success? && r.vaultFile == Some([]) &&
      r.replies == [Saved, Shown(Credentials("a@b.com", "Secr3t!")), Listed(["gmail"]),
                    Saved, Listed([])]
  {
    StripOfTrimmed("pw1");
    FirstRunVerify(hash, [("pw1", "pw1")], "pw1", 0);
    ScenarioServe(c, key);
  }

  /** The menu part of the first run: the five requests served in order. */
  lemma ScenarioServe(c: Cipher, key: Key)
    requires RoundTrips(c)
    ensures Serve(Stepper(c, key), None,
      [AddRequest("Gmail", "a@b.com", PasswordAnswers("M", None, "Secr3t!"), 0),
       GetRequest("gmail"), ListRequest, DeleteRequest("gmail", "y"), ListRequest])
      == (Some([]), [Saved, Shown(Credentials("a@b.com", "Secr3t!")), Listed(["gmail"]),
                     Saved, Listed([])])
  {
    var step := Stepper(c, key);
    var e := Entry("a@b.com", c.encrypt(key, 0, "Secr3t!"));
    var stored: Option<Vault> := Some([Item("gmail", e)]);
    ScenarioAdd(c, key);
    ScenarioGet(c, key);
    ScenarioDelete(c, key);
    ScenarioLists(c, key);
    ServeScript(step, stored, AddRequest("Gmail", "a@b.com", PasswordAnswers("M", None, "Secr3t!"), 0),
      GetRequest("gmail"), DeleteRequest("gmail", "y"), Credentials("a@b.com", "Secr3t!"), ["gmail"]);
  }

  lemma ScenarioLists(c: Cipher, key: Key)
    ensures var stored: Option<Vault> := Some([Item("gmail", Entry("a@b.com", c.encrypt(key, 0, "Secr3t!")))]);
      Stepper(c, key)(stored, ListRequest) == Outcome(stored, Listed(["gmail"])) &&
      Stepper(c, key)(Some([]), ListRequest) == Outcome(Some([]), Listed([]))
  {
    assert Keys([Item("gmail", Entry("a@b.com", c.encrypt(key, 0, "Secr3t!")))]) == ["gmail"];
  }

  /** Serving add, get, list, delete, list with a step whose single
      outcomes are known. */
  lemma ServeScript(step: (Option<Vault>, Request) -> Outcome, stored: Option<Vault>,
                    add: Request, get: Request, del: Request, cr: Credentials, listed: seq<string>)
    requires step(None, add) == Outcome(stored, Saved)
    requires step(stored, get) == Outcome(stored, Shown(cr))
    requires step(stored, ListRequest) == Outcome(stored, Listed(listed))
    requires step(stored, del) == Outcome(Some([]), Saved)
    requires step(Some([]), ListRequest) == Outcome(Some([]), Listed([]))
    ensures Serve(step, None, [add, get, ListRequest, del, ListRequest])
      == (Some([]), [Saved, Shown(cr), Listed(listed), Saved, Listed([])])
  {
    var emptied: Option<Vault> := Some([]);
    var r5 := Serve(step, emptied, [ListRequest]);
    ServeOne(step, emptied, [ListRequest]);
    assert r5.1 == [Listed([])] + [];
    var r4 := Serve(step, stored, [del, ListRequest]);
    ServeOne(step, stored, [del, ListRequest]);
    assert r4 == (emptied, [Saved] + r5.1);
    var r3 := Serve(step, stored, [ListRequest, del, ListRequest]);
    ServeOne(step, stored, [ListRequest, del, ListRequest]);
    assert r3 == (emptied, [Listed(listed)] + r4.1);
    var r2 := Serve(step, stored, [get, ListRequest, del, ListRequest]);
    ServeOne(step, stored, [get, ListRequest, del, ListRequest]);
    assert r2 == (emptied, [Shown(cr)] + r3.1);
    ServeOne(step, None, [add, get, ListRequest, del, ListRequest]);
    assert [add, get, ListRequest, del, ListRequest][1..] == [get, ListRequest, del, ListRequest];
    var r1 := Serve(step, None, [add, get, ListRequest, del, ListRequest]);
    assert r1 == (emptied, [Saved] + r2.1);
    assert r1.1 == [Saved, Shown(cr), Listed(listed), Saved, Listed([])];
  }

  /** Serving a request that does not end the run, then the rest. */
  lemma ServeOne(step: (Option<Vault>, Request) -> Outcome, file: Option<Vault>, reqs: seq<Request>)
    requires reqs != [] && !EndsRun(step(file, reqs[0]).reply)
    ensures var o := step(file, reqs[0]);
      Serve(step, file, reqs) ==
        (Serve(step, o.file, reqs[1..]).0, [o.reply] + Serve(step, o.file, reqs[1..]).1)
  {
  }

  lemma ScenarioAdd(c: Cipher, key: Key)
    ensures Stepper(c, key)(None, AddRequest("Gmail", "a@b.com", PasswordAnswers("M", None, "Secr3t!"), 0))
      == Outcome(Some([Item("gmail", Entry("a@b.com", c.encrypt(key, 0, "Secr3t!")))]), Saved)
  {
    NormalFormOf("Gmail", "gmail");
    NormalFormOf("M", "m");
    StripOfTrimmed("a@b.com");
    StripOfTrimmed("Secr3t!");
    AddToEmpty(c, key, 0, "Gmail", "a@b.com", PasswordAnswers("M", None, "Secr3t!"));
  }

  /** Adding to the empty vault gives a vault of that one entry. */
  lemma AddToEmpty(c: Cipher, key: Key, nonce: Nonce, service: string, username: string,
                   answers: PasswordAnswers)
    requires ChosenPassword(answers).Some?
    ensures AddAccount([], c, key, nonce, service, username, answers) ==
      Success([Item(Normalize(service), Entry(Strip(username),
        c.encrypt(key, nonce, ChosenPassword(answers).value)))])
  {
    var empty: Vault := [];
    var x := Entry(Strip(username), c.encrypt(key, nonce, ChosenPassword(answers).value));
    assert Find(empty, Normalize(service)) == None;
    assert Put(empty, Normalize(service), x) == [Item(Normalize(service), x)];
  }

  lemma ScenarioGet(c: Cipher, key: Key)
    requires RoundTrips(c)
    ensures var stored := [Item("gmail", Entry("a@b.com", c.encrypt(key, 0, "Secr3t!")))];
      Stepper(c, key)(Some(stored), GetRequest("gmail")) ==
      Outcome(Some(stored), Shown(Credentials("a@b.com", "Secr3t!")))
  {
    NormalFormOf("gmail", "gmail");
    assert c.decrypt(key, c.encrypt(key, 0, "Secr3t!")) == Some("Secr3t!");
  }

  lemma ScenarioDelete(c: Cipher, key: Key)
    ensures var stored := [Item("gmail", Entry("a@b.com", c.encrypt(key, 0, "Secr3t!")))];
      Stepper(c, key)(Some(stored), DeleteRequest("gmail", "y")) == Outcome(Some([]), Saved)
  {
    NormalFormOf("gmail", "gmail");
    NormalFormOf("y", "y");
    DeleteOnlyEntry("gmail", Entry("a@b.com", c.encrypt(key, 0, "Secr3t!")), "gmail", "y");
  }

  /** A confirmed deletion of the only entry empties the vault. */
  lemma DeleteOnlyEntry(k: string, e: Entry, service: string, confirm: string)
    requires Normalize(service) == k && Answers(confirm, "y")
    ensures DeleteAccount([Item(k, e)], service, confirm) == Success([])
  {
    var v: Vault := [Item(k, e)];
    AsMapAt(v, 0);
    var r := DeleteAccount(v, service, confirm).value;
    assert Keys(v) == [k];
    assert Without([k], k) == [] + Without([], k);
    assert |r| == |Keys(r)|;
  }

  /** `name` lower-cases to `lowered`, which has no surrounding whitespace. */
  lemma NormalFormOf(name: string, lowered: string)
    requires Lower(name) == lowered && Trimmed(lowered)
    ensures Normalize(name) == lowered
  {
    StripOfTrimmed(lowered);
  }
}
