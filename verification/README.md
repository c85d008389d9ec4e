# Password vault: record model and master gate

A model in Dafny of `main.py`, a single-user command-line password manager.
The program guards a local vault of per-service credentials with a master
passphrase. Only the passphrase's SHA-256 digest is kept, in `master.hash`.
The vault lives in `vault.json` as a dictionary from a service name to
`{"username", "password"}`, with the password encrypted by Fernet under a key
kept in `secret.key`.

The model covers:

- **Text** (`text.dfy`): `str.lower()` and `str.strip()` restricted to ASCII,
  and the normal form `lower().strip()` that every service name goes through,
  as do the generate-or-type, copy and delete-confirmation answers.
- **Crypto** (`crypto.dfy`): the cipher and the digest as values passed in. A
  `Cipher` is a pair of functions. The only thing ever assumed of it is the
  round trip `RoundTrips(c)`: decrypting what was encrypted under the same key
  gives the plaintext back. It is a hypothesis of the lemmas that need it, and
  a witness shows that some cipher meets it. A `Hasher` returns a lower-case
  hexadecimal digest.
- **OrderedMap** (`ordered_map.dfy`): Python's insertion-ordered `dict` as a
  sequence of items with distinct keys. `AsMap` reads it as a plain map and
  `Keys` gives its iteration order. Lookup, assignment and `del` are stated
  against both.
- **Accounts** (`accounts.dfy`): `add_account`, `get_account`, `list_accounts`,
  `delete_account` and `update_password`. Each operation works on the loaded
  vault, with its prompts replaced by the answers given to them. A successful
  change returns the vault to save; a failure returns the reason.
- **MasterGate** (`master_gate.dfy`): `setup_master_password` and
  `verify_master_password`.
- **Session** (`session.dfy`): `main`. It runs the gate first, then serves the
  menu requests in order, and stops at an exception nothing catches.

## Model

| member | source | states |
|---|---|---|
| Text.Lower | main.py:77 | `lower()` keeps the length and leaves no upper-case letter; character by character it is the ASCII case mapping, which is its definition |
| Text.Strip | main.py:78 | the result has no whitespace at either end and is no longer than the input |
| Text.StripRemovesOnlyPadding | main.py:78 | `strip()` returns a slice of its input and drops only whitespace, on both sides |
| Text.StripIgnoresPadding | main.py:38 | whitespace typed around an answer does not change what `strip()` returns |
| Text.Normalize | main.py:77 | a service name's normal form has no upper-case letter and no surrounding whitespace |
| Text.NormalizeIdempotent | main.py:77 | normalising a stored name again gives the same name, so it addresses the same entry |
| Text.NormalizeIgnoresCaseAndPadding | main.py:105 | names differing only in ASCII letter case and surrounding whitespace address the same entry |
| Crypto.RoundTripCipherExists | main.py:98-113 | the round-trip assumption on the cipher can be met, so the lemmas that rely on it are not vacuous |
| Crypto.DigestSurvivesStrip | main.py:36-39 | a hex digest written to the master file reads back unchanged through `strip()` |
| OrderedMap.Lookup | main.py:108-112 | `k in d` then `d[k]`: the value the map holds for `k`, or none when `k` is absent |
| OrderedMap.Put | main.py:99 | `d[k] = x` maps `k` to `x` and keeps every other pair; an existing key keeps its place, and a new key goes last |
| OrderedMap.Remove | main.py:144 | `del d[k]` drops exactly `k` from the map; the other keys stay in their relative order |
| OrderedMap.WithoutOnly | main.py:144 | dropping a key that occurs once is cutting it out of the key order |
| Accounts.ChosenPassword | main.py:80-95 | answering "g" after normalising takes the generator's result as is, including its failure; any other answer takes the typed password, stripped, so it has no surrounding whitespace |
| Accounts.GenerateChoiceIgnoresCaseAndPadding | main.py:80-82 | "G" or "g" with any surrounding whitespace selects the generated password |
| Accounts.AddAccount | main.py:76-100 | fails with InvalidInput exactly when the generator path raised. Otherwise the normalised name maps to the stripped username and the encrypted password, and nothing else changes. A new name is appended to the key order, and an existing one keeps its place |
| Accounts.GetAccount | main.py:104-113 | NotFound exactly when the normalised name is absent. Otherwise it gives the stored username and the decrypted password, or InvalidToken when decryption fails |
| Accounts.ListAccounts | main.py:125-132 | the keys in insertion order, each once; empty exactly when the vault is empty |
| Accounts.DeleteAccount | main.py:134-148 | NotFound when absent and Cancelled when not confirmed with "y". A confirmed deletion removes exactly that name and keeps the other names in their order |
| Accounts.UpdatePassword | main.py:150-172 | NotFound when absent, before any password prompt. GeneratorRaised when generation raised. Otherwise only the password of that entry changes; the username and the key order are kept |
| Accounts.AddThenGet | main.py:97-113 | after an add, a lookup under any spelling of the name gives the stripped username and the chosen password |
| Accounts.AddOverwritesInPlace | main.py:99 | adding under a present name replaces that entry at its position and leaves every other entry unchanged |
| Accounts.ListAfterAdd | main.py:99-132 | after an add, a new service is listed last and an existing one keeps the listing unchanged |
| Accounts.ListAfterDelete | main.py:131-144 | after a confirmed deletion, the listing is the previous one without that service |
| Accounts.DeleteThenGet | main.py:143-145 | after a confirmed deletion, a lookup under any spelling of the name reports NotFound |
| Accounts.UpdateThenGet | main.py:170-171 | after an update, the entry reads back with its old username and the new password |
| Accounts.AddKeepsKeysNormalized | main.py:77-99 | an add stores its entry under a name in normal form, so the vault never holds one service under two spellings |
| Accounts.DeleteKeepsKeysNormalized | main.py:144 | a deletion keeps every stored name in normal form |
| Accounts.UpdateKeepsKeysNormalized | main.py:170 | an update keeps every stored name in normal form |
| MasterGate.Setup | main.py:24-30 | a digest is produced exactly when the two stripped answers agree; it is the digest of the stripped answer |
| MasterGate.SetupIsOneRound | main.py:24-30 | one round of the repeated setup on the answers as typed writes what `Setup` writes; a mismatch in the only round leaves no master set |
| MasterGate.SetupRounds | main.py:21-31 | setup succeeds exactly when some round's answers agree; it writes the digest from the first such round and fails only when the answers run out |
| MasterGate.FirstMatchUnique | main.py:26-28 | only one round can be the first whose answers agree |
| MasterGate.Verify | main.py:33-42 | access is granted exactly when a master file exists and the digest of the stripped entry equals its stripped contents. An existing master file is never rewritten; one is created only by a successful setup |
| MasterGate.SetupThenVerify | main.py:29-39 | after setup, access is granted exactly to entries with the digest of the passphrase set up, including that passphrase with any padding |
| MasterGate.FirstRunVerify | main.py:33-39 | on a first run, the master file holds the digest from the first agreeing round, and access is granted exactly to entries with that digest |
| Session.Load | main.py:63-67 | a missing vault file loads as the empty vault, which lists nothing; an existing file loads as its contents |
| Session.Step | main.py:190-199 | choices 1, 2, 4 and 5 run their operation on the loaded vault. An add, delete or update replies Saved exactly when its operation succeeds, and then the file holds the operation's result; otherwise it replies with the operation's error. A lookup shows exactly the credentials the lookup returns. A listing shows the keys in order. The file changes only with a Saved reply |
| Session.StepAddThenGet | main.py:190-193 | an add through the menu followed by a lookup under any spelling of the name shows the stripped username and the chosen password |
| Session.StepDeleteThenGet | main.py:192-197 | a confirmed delete through the menu makes a later lookup under any spelling report NotFound |
| Session.Serve | main.py:180-204 | at most one reply per request; the loop stops before the last request only at a reply that ends the run, no earlier reply ends it, and the first reply is the step's reply to the first request |
| Session.Run | main.py:177-204 | the master file and the verdict are exactly those of the passphrase check, first runs included; a refused run serves no request and leaves the vault file untouched; an accepted run serves the requests in order |
| Session.FirstRunWithoutAgreementServesNothing | main.py:22-35 | a first run whose setup answers never agree sets no passphrase, grants no access and serves nothing |
| Session.FirstRunAccess | main.py:33-39 | on a first run the menu is served exactly when the entry hashes like the first agreeing setup answer, whose digest is the master file |
| Session.MissingServiceChangesNothing | main.py:108-110 | a lookup, deletion or update of an absent service reports NotFound and leaves the vault file unchanged |
| Session.RunKeepsKeysNormalized | main.py:177-199 | whatever requests a run serves, every stored name stays in normal form |
| Session.WrongPassphraseServesNothing | main.py:39-41 | a passphrase whose digest differs from the stored one is denied, and the run serves nothing |
| Session.FirstRunScenario | main.py:177-199 | a first run sets up "pw1", accepts it, stores a Gmail account, reads it back, lists it, deletes it and lists an empty vault |

## Left out

- Fernet and SHA-256 are not modelled. The cipher is any pair of functions
  that round-trips; the digest is any function into lower-case hex strings.
  The key file (`load_key`) is a parameter.
- Fernet's fresh random IV per encryption is an explicit `Nonce` parameter.
  The model claims neither that two encryptions differ nor that tampering is
  detected. It only claims that decryption either fails or returns a string.
- File I/O and JSON are left out. A vault file is `Option<Vault>`, and a
  missing file loads as the empty vault. The JSON round trip of `save_vault`
  and `load_vault` is taken to preserve the dictionary and its order.
- Prompts, printed messages, the clipboard copy in `get_account`, invalid menu
  choices (which change nothing) and the Exit choice are left out. The
  request sequence simply ends.
- The top-level menu choice is not normalised: `main` compares the raw
  input with "1" to "6", so " 1" or "1 " is an invalid choice. A `Request`
  stands for a choice that matched exactly.
- `GenNewPassword` and the `int(input())` reads before it are an
  `Option<string>`, with `None` meaning one of them raised.
- `lower()` and `strip()` are modelled on ASCII only: letters `A`-`Z`, and
  the whitespace characters 0x09-0x0D, 0x1C-0x20. Python's Unicode case
  mapping and other whitespace are not modelled.
- MasterGate.SetupRounds: the recursive re-prompt of `setup_master_password`
  is modelled over a finite list of answer rounds. When no round agrees the
  result is NoMasterSet, which stands for the user never answering
  consistently. The program itself would keep asking. Recursion depth is not
  modelled either: each mismatch adds a stack frame, so after roughly a
  thousand mismatches the program raises RecursionError even when a later
  round would agree, while SetupRounds still succeeds there.
- The model follows `main.py` as written:
  - The digests are compared with `!=`, not in constant time.
  - A decryption failure in `get_account` and a generator failure in
    `update_password` are not caught. They end the run (InvalidToken,
    GeneratorRaised). The generator failure in `add_account` is caught
    (InvalidInput).
  - Setup re-prompts by recursion, not by a loop.
  - A first run writes the master file before the entered passphrase is
    checked. A denied first run therefore still leaves the master file set.
- Text.Strip: its contract states only that the result has non-blank ends
  and is no longer than the input. That it cuts out a slice and drops only
  whitespace is proved separately in Text.StripRemovesOnlyPadding.
- Session.Serve: its contract states the stopping rule and the first reply
  only. It does not relate the later replies to the step in general;
  Session.FirstRunScenario shows them for a concrete run.
- The vault file's keys are assumed to be in normal form. They are whenever
  only this program wrote the file (Session.RunKeepsKeysNormalized). A
  hand-edited file may hold names that no normalised query reaches; the
  lookups then report NotFound, as the code does.
