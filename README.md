# checkPassword validator chain in Dafny

This project models the password validation chain of `validators.py` and
proves properties of it. A candidate password goes through six validators in
a fixed order: Length, Digit, SpecialChar, Upper, Lower and Pwned. The first
failure ends the run, and the run then fails with that validator's fixed
message. Pwned is the range query of the "Pwned Passwords" service, which uses
k-anonymity. The password's SHA-1 digest is written as 40 upper-case hex
characters. Only its first 5 characters are sent to the service. The
response has one `SUFFIX:COUNT` row per line, separated by CRLF. The password
counts as pwned when the first field of some row completes the digest.

Files and modules:

- `pystr.dfy`, module `PyStr`: the Python built-ins the validators use.
  These are `any`, `all`, the list comprehension over characters,
  `str.split` and `str.upper`. `Find` and `Join` are not called by the
  validators. They are helpers: `Split` is defined with `Find`, and `Join`
  states what `Split` undoes.
- `rules.dfy`, module `LocalRules`: the outcome type (`Ok`, or `Fail(msg)` in
  place of a raised `ValidationError`), the character classifier, and the
  five local rules with their messages.
- `pwned.dfy`, module `Pwned`: `hash_pass`, the request URL, how a row is
  parsed and matched, and the pure check. `PwnedValidator.is_valid` is two
  methods: `ScanRows`, the loop over the response rows, and `PwnedIsValid`,
  which hashes, fetches and scans.
- `chain.dfy`, module `Chain`: the validator list built by
  `PasswordValidator.__init__`, the run over it (its outcome and the URLs it
  fetches), the `PasswordValidator` class with its `is_valid` loop, and the
  lemmas about ordering and short-circuiting. `PwnedIsValid` appends the URL
  it fetches to a ghost `RequestLog` object (declared in `pwned.dfy`) that
  the caller passes down, so the contracts can say which lookups were made
  through that log.
- `scenarios.dfy`, module `Scenarios`: the cases of `validators_test.py` as
  lemmas, with the ASCII classifier and the mocked range responses.

Parameters stand for the parts of the program that are outside the model.
`Env` holds them:

- `cls: Classifier` holds the four character predicates (`isdigit`,
  `isalnum`, `isupper`, `islower`).
- `sha1: string -> HexDigest` stands for
  `sha1(p.encode('utf-8')).hexdigest()`. It can be any function that returns
  40 lower-case hex characters.
- `get: string -> string` stands for `requests.get(url).text`.

## Model

| member | source | states |
|---|---|---|
| `PyStr.Any` | validators.py:86 | Python `any` over the list comprehension is true iff some element is true |
| `PyStr.All` | validators.py:105 | Python `all` is true iff every element is true, so it is true on the empty list |
| `PyStr.Find` | validators.py:165 | helper for `split` (not called by the validators): -1 iff the separator does not occur; otherwise the separator occurs at the index given and at no earlier index |
| `PyStr.Join` | validators.py:165 | helper stating what `split` undoes (not called by the validators): the first piece starts the joined string, followed by the separator when more pieces follow |
| `PyStr.Split` | validators.py:165 | `split(sep)` gives at least one piece, no piece contains `sep`, and joining the pieces with `sep` gives back the input |
| `PyStr.SplitAtFirst` | validators.py:165 | when the first separator character is not in `head`, `head + sep + tail` splits into `head` followed by the pieces of `tail` |
| `PyStr.SplitWithoutSeparator` | validators.py:165 | a string in which the separator does not occur splits into itself alone |
| `PyStr.LacksFirstChar` | validators.py:165 | a string without the separator's first character does not contain the separator |
| `PyStr.Classify` | validators.py:86 | the comprehension `[f(letter) for letter in password]` has one entry per character, the classifier applied to that character |
| `PyStr.Upper` | validators.py:176 | `.upper()` works character by character; the result holds no lower-case letter, and a string without one is left unchanged |
| `LocalRules.LengthRule` | validators.py:60-70 | passes iff the password has at least 8 characters; otherwise fails with exactly the length message |
| `LocalRules.DigitRule` | validators.py:79-89 | passes iff some character is a digit under the classifier; otherwise fails with the digit message |
| `LocalRules.SpecialCharRule` | validators.py:98-108 | passes iff some character is not alphanumeric; otherwise fails with the special-character message, and the empty password fails |
| `LocalRules.UpperRule` | validators.py:117-127 | passes iff some character is upper-case; otherwise fails with the upper-case message |
| `LocalRules.LowerRule` | validators.py:136-146 | passes iff some character is lower-case; otherwise fails with the lower-case message |
| `LocalRules.DigitsOnlyLackSpecialChar` | validators.py:105-108 | if every digit is alphanumeric, a non-empty all-digit password passes the digit rule and fails the special-character rule |
| `Pwned.HashPass` | validators.py:173-176 | the upper-cased hex digest has exactly 40 characters, all upper-case hex |
| `Pwned.LookupKey` | validators.py:164 | the URL requested is the range endpoint followed by exactly the first 5 digest characters, so it is 5 characters longer than the endpoint |
| `Pwned.RangeUrl` | validators.py:164 | the URL is the range endpoint followed by a 5-character key that holds no lower-case letter |
| `Pwned.Rows` | validators.py:165 | `text.split('\r\n')` gives at least one row, no row holds a CRLF, and the rows joined with CRLF give back the body |
| `Pwned.FirstField` | validators.py:168 | `row.split(':')[0]` is the longest colon-free prefix of the row: the whole row, or followed by the row's first colon |
| `Pwned.RowMatches` | validators.py:169 | the test `hashed_pass[0:5] + row_splited[0] == hashed_pass` holds iff the row's first field is the digest's suffix |
| `Pwned.PrefixMatch` | validators.py:169 | `digest[0:5] + x == digest` holds iff `x` is the digest's suffix `digest[5:]` |
| `Pwned.PwnedCheck` | validators.py:167-171 | the result is `Ok` or the pwned message, and it is pwned iff some CRLF row's first field equals the digest's 35-character suffix |
| `Pwned.PwnedRule` | validators.py:162-171 | for the password's digest `d`, pwned iff some row of the response for `endpoint + d[0:5]` has first field `d[5:]`; otherwise `Ok` |
| `Pwned.ScanRows` | validators.py:165-171 | the loop over the CRLF rows, which returns at the first row that completes the digest, computes exactly `PwnedCheck` |
| `Pwned.PwnedIsValid` | validators.py:155-171 | hashing, fetching the range for the prefix and scanning its rows computes exactly `PwnedRule`; the one URL fetched is appended to the request log |
| `Pwned.FirstFieldBeforeColon` | validators.py:168-169 | the part of a row after its first colon (the count, trailing spaces) is ignored |
| `Pwned.FirstFieldWithoutColon` | validators.py:168 | a row without a colon is its own first field |
| `Pwned.LowerCaseFieldNeverMatches` | validators.py:169 | matching is case-sensitive: a first field that holds a lower-case letter never matches the upper-case digest |
| `Chain.Check` | validators.py:43-44 | each validator either passes or fails with its own message |
| `Chain.Requests` | validators.py:164 | only PwnedValidator fetches anything; it fetches one URL, the range query for the password's digest prefix |
| `Chain.Run` | validators.py:42-46 | every URL a run fetches is the password's range query, and there are no more requests than PwnedValidator entries in the list |
| `Chain.Validate` | validators.py:26-46 | the run over the fixed list makes at most one request, the range query for the password's digest prefix |
| `Chain.RunAcceptsIff` | validators.py:42-46 | a run over any list of validators succeeds iff every validator in the list passes |
| `Chain.RunStopsAtFirstFailure` | validators.py:42-46 | if validator `i` is the first to fail, the run fails with its outcome, and the whole report equals that of the list cut after `i`, so later validators are never evaluated |
| `Chain.RunFailureIsFirst` | validators.py:42-46 | a failing run fails with the outcome of a validator that every earlier validator passed before |
| `Chain.MessageNamesValidator` | validators.py:70-170 | the six messages are distinct, so a failure message identifies its validator |
| `Chain.ValidateOrder` | validators.py:26-33 | the outcome is that of the first failing rule in the order Length, Digit, SpecialChar, Upper, Lower, Pwned; the run makes one request (to `endpoint + digest[0:5]`) iff all five local rules pass, and no request otherwise |
| `Chain.ValidateReport` | validators.py:26-46 | the whole report of the fixed list: the first failing validator in list order gives the outcome with no request, and otherwise the Pwned outcome comes with exactly one range query |
| `Chain.RunStepPasses` | validators.py:42-44 | a pass of the loop whose validator passes: what the log still lacks of the run is that validator's requests followed by the run over the rest |
| `Chain.RunStepFails` | validators.py:43-44 | a pass whose validator fails: the run fails with its outcome, and the log is complete once its requests are appended |
| `Chain.RunEnd` | validators.py:42-46 | a loop that runs to the end of the list means the run succeeded, and the log holds exactly its requests |
| `Chain.RunCons` | validators.py:42-44 | one step of the loop: the head validator decides, or the rest of the list runs |
| `Chain.ValidateAcceptsIff` | validators.py:35-46 | a password is accepted iff it has at least 8 characters, a digit, a non-alphanumeric, an upper-case and a lower-case character, and no row of its range response lists its suffix |
| `Chain.ShortPasswordRejected` | validators.py:67-70 | a password shorter than 8 characters fails with the length message and makes no request |
| `Chain.RunValidator` | validators.py:43-44 | calling one validator's `is_valid` gives exactly that validator's `Check` outcome, and appends exactly its `Requests` to the request log |
| `Chain.PasswordValidator.constructor` | validators.py:24-33 | stores the password unchanged, with the six validators in their fixed order |
| `Chain.PasswordValidator.IsValid` | validators.py:35-46 | the loop with early exit returns the outcome of the run over the stored list, and the request log grows by exactly the run's URLs: one range query when PwnedValidator is reached, none when an earlier validator fails |
| `Chain.PasswordValidator.GetPassword` | validators.py:48-51 | `get_password` returns the password the validator was built with |
| `Chain.ValidateCandidate` | validators.py:48-51 | after validation, `get_password` returns the constructor argument unchanged; the outcome is the chain's, and the request log grows by exactly the chain's URLs |
| `Scenarios.LengthCases` | validators_test.py:13-25 | 'aQ1w./I9' and 'hj&KąS=+0A' pass the length rule; 'Q1w./I9' fails with the length message |
| `Scenarios.DigitCases` | validators_test.py:28-40 | 'aQ1w./I9' and 'hj&KąS=+0A' have a digit; 'asdfghjk' fails with the digit message |
| `Scenarios.SpecialCharCases` | validators_test.py:43-54 | 'aQ1w.I9' and 'aQ1wI/9' pass; 'aQ1wI9' and the empty string fail with the special-character message |
| `Scenarios.UpperCases` | validators_test.py:57-68 | 'ASDFGHJK' and 'asdfghjK' pass; 'a1d.f!g`h:"jk' fails with the upper-case message |
| `Scenarios.LowerCases` | validators_test.py:71-82 | 'ASDFGHjK' and 'asdfghjK' pass; 'A1D.F!G`H:"JK' fails with the lower-case message |
| `Scenarios.ThreeRows` | validators.py:164-165 | a body of three rows without carriage returns splits into exactly those rows |
| `Scenarios.ListedInMiddle` | validators.py:167-170 | a response whose middle row lists the digest's suffix makes the check fail with the pwned message |
| `Scenarios.NoneOfThreeListed` | validators.py:167-171 | a three-row response in which no suffix is the digest's makes the check pass |
| `Scenarios.ListedCase` | validators_test.py:85-92 | with digest D8CFD950EB…, the mocked response that lists 950EB9C4…BED fails with the pwned message |
| `Scenarios.UnlistedCase` | validators_test.py:95-100 | the same response with 850EB… in place of 950EB… passes |
| `Scenarios.PwnedRuleCases` | validators_test.py:85-100 | a password with that digest, whose lookup of prefix D8CFD returns the mocked body, is pwned in the first test and passes in the second |
| `Scenarios.NoDigitRejected` | validators.py:42-46 | the chain rejects 'asdfghjk' with the digit message and never makes a request |
| `Scenarios.EmptyBodyUnlisted` | validators.py:165-171 | an empty range response (one empty row) lists no suffix of a digest longer than 5 characters, so the check passes |
| `Scenarios.GoodPasswordAccepted` | validators.py:42-46 | 'aQ1w./I9' passes the five local rules; with an empty range response it is accepted after exactly one request |

## Left out

- The HTTP GET to `api.pwnedpasswords.com` (validators.py:164) is the parameter `get`. A transport error raises an exception from `requests`, and that exception is not modelled. The code has no error path of its own for it.
- SHA-1 and UTF-8 encoding (validators.py:176) are the parameter `sha1`. The model knows only that it returns 40 lower-case hex characters.
- The Unicode meaning of `isdigit`, `isalnum`, `isupper` and `islower` is left out. They are the `Classifier` parameter. The only law assumed (`Consistent`) is that a digit is alphanumeric. The scenarios use an ASCII classifier, so the 'ą' in 'hj&KąS=+0A' is not a letter there. No scenario depends on that character.
- `str.upper` is modelled on ASCII letters only. It is only ever applied to hex digests, and on those the ASCII rule gives Python's result.
- `main.py` is not part of this model: file reading and writing, logging, `print`, `FileNotFoundError` and `line.strip()`.
- The abstract base class `Validator` (validators.py:10-18) is replaced by the `Validator` datatype and `Check`.
- Each Python validator object that stores `_password` (validators.py:57-58 and the matching lines of the others) is replaced by a function of the password. Those fields are set once and never changed.
- The code has no outcome of its own for a transport failure, and it compares rows case-sensitively without normalising either side (validators.py:164-170). The model does the same.
- Chain.PasswordValidator.IsValid: the contract observes the lookups that `PwnedIsValid` records in the `log` passed in, and only those. `get` is a pure function parameter and the log is ghost state. A method can still fetch through `PwnedIsValid` with a log of its own, evaluate `get` directly or through `Check` and `PwnedRule`, or assign `entries` directly, and the caller's log shows none of these.
- A rejection carries only the message, not the validator's position in the list. `Chain.MessageNamesValidator` shows that the message alone identifies the validator.
