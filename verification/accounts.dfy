/** The five vault operations of the menu (`add_account`, `get_account`,
    `list_accounts`, `delete_account`, `update_password`) with their prompts
    replaced by the answers given to them. Each operation works on the vault
    as loaded; one that succeeds in changing it returns the vault to be
    saved, and one that fails returns the reason and saves nothing. */
module Accounts {
  import opened Wrappers
  import opened Text
  import opened Crypto
  import opened OrderedMap

  /** A stored record, `{"username": ..., "password": ...}`; the password
      is cipher text. */
  datatype Entry = Entry(username: string, password: string)

  /** The vault as `load_vault` returns it: service name to record, in
      insertion order. */
  type Vault = Dict<string, Entry>

  /** The answers to the password prompts. `choice` answers "(G)enerate or
      (M)anually enter"; `generated` is what reading the four minimums and
      the length and calling the generator produced, `None` when any of
      those raised; `typed` is the password entered by hand. */
  datatype PasswordAnswers = PasswordAnswers(choice: string, generated: Option<string>, typed: string)

  datatype AccountError =
    | NotFound         // "No such account found."
    | Cancelled        // a deletion that was not confirmed
    | InvalidInput     // the generator path of `add_account` raised and was caught
    | GeneratorRaised  // the generator path of `update_password` raised; nothing catches it
    | InvalidToken     // the stored password did not decrypt; nothing catches it

  /** Errors that escape the operation as exceptions and end the program. */
  predicate Fatal(e: AccountError) {
    e == GeneratorRaised || e == InvalidToken
  }

  datatype Credentials = Credentials(username: string, password: string)

  /** A menu answer that selects an option: `answer.lower().strip() == option`. */
  predicate Answers(answer: string, option: string) {
    Normalize(answer) == option
  }

  /** The plaintext password the prompts yield: a generated one, kept as
      is, or a typed one, stripped; `None` when generation raised. */
  function ChosenPassword(a: PasswordAnswers): (r: Option<string>)
    ensures Answers(a.choice, "g") ==> r == a.generated
    ensures !Answers(a.choice, "g") ==> r.Some? && Trimmed(r.value)
    ensures r.Some? && !Answers(a.choice, "g") ==> r.value == Strip(a.typed)
  {
    if Answers(a.choice, "g") then a.generated else Some(Strip(a.typed))
  }

  /** "G" typed in either case and with any surrounding whitespace selects
      the generated password. */
  lemma GenerateChoiceIgnoresCaseAndPadding(pre: string, g: string, post: string,
                                            generated: Option<string>, typed: string)
    requires AllSpace(pre) && AllSpace(post) && (g == "G" || g == "g")
    ensures ChosenPassword(PasswordAnswers(pre + g + post, generated, typed)) == generated
  {
    StripOfTrimmed("g");
    NormalizeIgnoresCaseAndPadding("g", pre, g, post);
  }

  /** Every key is its own normal form, as it is when only these operations
      have written the vault. */
  predicate NormalizedKeys(v: Vault) {
    forall k | k in Keys(v) :: Normalize(k) == k
  }

  /** `add_account`: store the stripped username and the encrypted password
      under the normalised service name, replacing any entry already there. */
  function AddAccount(v: Vault, c: Cipher, key: Key, nonce: Nonce,
                      service: string, username: string, answers: PasswordAnswers)
    : (r: Result<Vault, AccountError>)
    ensures r.Success? <==> ChosenPassword(answers).Some?
    ensures r.Failure? ==> r.error == InvalidInput
    ensures r.Success? ==>
      AsMap(r.value) == AsMap(v)[Normalize(service) :=
        Entry(Strip(username), c.encrypt(key, nonce, ChosenPassword(answers).value))]
    ensures r.Success? && Normalize(service) in AsMap(v) ==> Keys(r.value) == Keys(v)
    ensures r.Success? && Normalize(service) !in AsMap(v) ==>
      Keys(r.value) == Keys(v) + [Normalize(service)]
  {
    AsMapDomain(v);
    match ChosenPassword(answers)
    case None => Failure(InvalidInput)
    case Some(pw) =>
      Success(Put(v, Normalize(service), Entry(Strip(username), c.encrypt(key, nonce, pw))))
  }

  /** `get_account`: the username and the decrypted password stored under
      the normalised service name. */
  function GetAccount(v: Vault, c: Cipher, key: Key, service: string)
    : (r: Result<Credentials, AccountError>)
    ensures Normalize(service) !in AsMap(v) <==> r == Failure(NotFound)
    ensures r.Success? <==>
      Normalize(service) in AsMap(v) &&
      c.decrypt(key, AsMap(v)[Normalize(service)].password).Some?
    ensures r.Success? ==>
      var e := AsMap(v)[Normalize(service)];
      r.value == Credentials(e.username, c.decrypt(key, e.password).value)
    ensures r.Failure? ==> r.error in {NotFound, InvalidToken}
  {
    match Lookup(v, Normalize(service))
    case None => Failure(NotFound)
    case Some(e) =>
      match c.decrypt(key, e.password)
      case None => Failure(InvalidToken)
      case Some(pw) => Success(Credentials(e.username, pw))
  }

  /** `list_accounts`: the service names in insertion order; empty exactly
      when the vault is. */
  function ListAccounts(v: Vault): (r: seq<string>)
    ensures |r| == |v| && forall i | 0 <= i < |v| :: r[i] == v[i].key
    ensures forall k :: k in r <==> k in AsMap(v)
    ensures forall i, j | 0 <= i < j < |r| :: r[i] != r[j]
    ensures r == [] <==> AsMap(v) == map[]
  {
    AsMapDomain(v);
    assert |v| > 0 ==> v[0].key in AsMap(v) by {
      if |v| > 0 {
        AsMapAt(v, 0);
      }
    }
    Keys(v)
  }

  /** `delete_account`: remove the entry under the normalised service name
      once the removal is confirmed. */
  function DeleteAccount(v: Vault, service: string, confirm: string)
    : (r: Result<Vault, AccountError>)
    ensures Normalize(service) !in AsMap(v) <==> r == Failure(NotFound)
    ensures Normalize(service) in AsMap(v) && !Answers(confirm, "y") ==> r == Failure(Cancelled)
    ensures r.Success? <==> Normalize(service) in AsMap(v) && Answers(confirm, "y")
    ensures r.Success? ==>
      AsMap(r.value) == AsMap(v) - {Normalize(service)} &&
      Keys(r.value) == Without(Keys(v), Normalize(service))
  {
    var k := Normalize(service);
    match Lookup(v, k)
    case None => Failure(NotFound)
    case Some(_) =>
      if Answers(confirm, "y") then Success(Remove(v, k)) else Failure(Cancelled)
  }

  /** `update_password`: re-encrypt the password of an existing entry,
      keeping its username and its place. The entry is looked up before the
      password is asked for. */
  function UpdatePassword(v: Vault, c: Cipher, key: Key, nonce: Nonce,
                          service: string, answers: PasswordAnswers)
    : (r: Result<Vault, AccountError>)
    ensures Normalize(service) !in AsMap(v) <==> r == Failure(NotFound)
    ensures Normalize(service) in AsMap(v) && ChosenPassword(answers).None? ==>
      r == Failure(GeneratorRaised)
    ensures r.Success? <==> Normalize(service) in AsMap(v) && ChosenPassword(answers).Some?
    ensures r.Success? ==>
      var k := Normalize(service);
      Keys(r.value) == Keys(v) &&
      AsMap(r.value) == AsMap(v)[k := AsMap(v)[k].(password :=
        c.encrypt(key, nonce, ChosenPassword(answers).value))]
  {
    var k := Normalize(service);
    AsMapDomain(v);
    match Lookup(v, k)
    case None => Failure(NotFound)
    case Some(e) =>
      match ChosenPassword(answers)
      case None => Failure(GeneratorRaised)
      case Some(pw) => Success(Put(v, k, e.(password := c.encrypt(key, nonce, pw))))
  }

  /** Storing a password and reading it back under any spelling of the same
      service name yields the stripped username and, by the cipher's round
      trip, the password that was chosen. */
  lemma AddThenGet(v: Vault, c: Cipher, key: Key, nonce: Nonce, service: string,
                   username: string, answers: PasswordAnswers, query: string)
    requires RoundTrips(c)
    requires ChosenPassword(answers).Some?
    requires Normalize(query) == Normalize(service)
    ensures AddAccount(v, c, key, nonce, service, username, answers).Success?
    ensures GetAccount(AddAccount(v, c, key, nonce, service, username, answers).value, c, key, query)
      == Success(Credentials(Strip(username), ChosenPassword(answers).value))
  {
    var pw := ChosenPassword(answers).value;
    var v' := AddAccount(v, c, key, nonce, service, username, answers).value;
    assert c.decrypt(key, c.encrypt(key, nonce, pw)) == Some(pw);
  }

  /** Adding under a name that is already present replaces its entry in
      place: the vault keeps its size and the order of its keys. */
  lemma AddOverwritesInPlace(v: Vault, c: Cipher, key: Key, nonce: Nonce, service: string,
                             username: string, answers: PasswordAnswers, i: nat)
    requires i < |v| && v[i].key == Normalize(service)
    requires ChosenPassword(answers).Some?
    ensures var r := AddAccount(v, c, key, nonce, service, username, answers);
      r.Success? && |r.value| == |v| &&
      r.value[i] == Item(v[i].key,
        Entry(Strip(username), c.encrypt(key, nonce, ChosenPassword(answers).value))) &&
      forall j | 0 <= j < |v| && j != i :: r.value[j] == v[j]
  {
    var r := AddAccount(v, c, key, nonce, service, username, answers).value;
    var k := Normalize(service);
    AsMapAt(v, i);
    assert Keys(r) == Keys(v);
    assert |r| == |Keys(r)|;
    assert r[i].key == k by {
      assert Keys(r)[i] == Keys(v)[i];
    }
    AsMapAt(r, i);
    forall j | 0 <= j < |v| && j != i
      ensures r[j] == v[j]
    {
      assert Keys(r)[j] == Keys(v)[j];
      AsMapAt(r, j);
      AsMapAt(v, j);
    }
  }

  /** The listing after an add: a new service is listed last, after every
      service listed before; an existing one keeps its place. */
  lemma ListAfterAdd(v: Vault, c: Cipher, key: Key, nonce: Nonce, service: string,
                     username: string, answers: PasswordAnswers)
    requires ChosenPassword(answers).Some?
    ensures var r := AddAccount(v, c, key, nonce, service, username, answers).value;
      ListAccounts(r) == if Normalize(service) in ListAccounts(v) then ListAccounts(v)
                         else ListAccounts(v) + [Normalize(service)]
  {
    AsMapDomain(v);
  }

  /** The listing after a confirmed deletion: the other services, in the
      order they were listed before. */
  lemma ListAfterDelete(v: Vault, service: string, confirm: string)
    requires Normalize(service) in AsMap(v) && Answers(confirm, "y")
    ensures ListAccounts(DeleteAccount(v, service, confirm).value) ==
      Without(ListAccounts(v), Normalize(service))
  {
  }

  /** After a confirmed deletion the service is not found, under any
      spelling of its name. */
  lemma DeleteThenGet(v: Vault, c: Cipher, key: Key, service: string, confirm: string, query: string)
    requires Normalize(service) in AsMap(v) && Answers(confirm, "y")
    requires Normalize(query) == Normalize(service)
    ensures DeleteAccount(v, service, confirm).Success?
    ensures GetAccount(DeleteAccount(v, service, confirm).value, c, key, query) == Failure(NotFound)
  {
  }

  /** After an update the entry reads back with its old username and the
      new password. */
  lemma UpdateThenGet(v: Vault, c: Cipher, key: Key, nonce: Nonce, service: string,
                      answers: PasswordAnswers, query: string)
    requires RoundTrips(c)
    requires Normalize(service) in AsMap(v) && ChosenPassword(answers).Some?
    requires Normalize(query) == Normalize(service)
    ensures UpdatePassword(v, c, key, nonce, service, answers).Success?
    ensures GetAccount(UpdatePassword(v, c, key, nonce, service, answers).value, c, key, query)
      == Success(Credentials(AsMap(v)[Normalize(service)].username, ChosenPassword(answers).value))
  {
    var pw := ChosenPassword(answers).value;
    assert c.decrypt(key, c.encrypt(key, nonce, pw)) == Some(pw);
  }

  lemma {:induction false} WithoutSubset(ks: seq<string>, k: string)
    ensures forall x | x in Without(ks, k) :: x in ks && x != k
  {
    if ks != [] {
      WithoutSubset(ks[1..], k);
    }
  }

  lemma PutKeepsKeysNormalized(v: Vault, k: string, e: Entry)
    requires NormalizedKeys(v) && Normalize(k) == k
    ensures NormalizedKeys(Put(v, k, e))
  {
    var ks := Keys(Put(v, k, e));
    assert forall x | x in ks :: x in Keys(v) || x == k;
  }

  /** Adding keeps the vault's keys normalised, so names differing in case
      or padding never become two entries. */
  lemma AddKeepsKeysNormalized(v: Vault, c: Cipher, key: Key, nonce: Nonce,
                               service: string, username: string, answers: PasswordAnswers)
    requires NormalizedKeys(v)
    ensures var r := AddAccount(v, c, key, nonce, service, username, answers);
      r.Success? ==> NormalizedKeys(r.value)
  {
    match ChosenPassword(answers)
    case None =>
    case Some(pw) =>
      NormalizeIdempotent(service);
      PutKeepsKeysNormalized(v, Normalize(service), Entry(Strip(username), c.encrypt(key, nonce, pw)));
  }

  /** Deleting keeps the vault's keys normalised. */
  lemma DeleteKeepsKeysNormalized(v: Vault, service: string, confirm: string)
    requires NormalizedKeys(v)
    ensures var r := DeleteAccount(v, service, confirm);
      r.Success? ==> NormalizedKeys(r.value)
  {
    var r := DeleteAccount(v, service, confirm);
    if r.Success? {
      WithoutSubset(Keys(v), Normalize(service));
    }
  }

  /** Updating keeps the vault's keys normalised. */
  lemma UpdateKeepsKeysNormalized(v: Vault, c: Cipher, key: Key, nonce: Nonce,
                                  service: string, answers: PasswordAnswers)
    requires NormalizedKeys(v)
    ensures var r := UpdatePassword(v, c, key, nonce, service, answers);
      r.Success? ==> NormalizedKeys(r.value)
  {
  }
}
