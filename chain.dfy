/**
 PasswordValidator of validators.py: the six validators run one after
 another in a fixed order, and the first failure ends the run. A raised
 `ValidationError` becomes the `Fail` outcome of the run.

 Besides its outcome, a run records the HTTP requests it issues, so that
 the model can state which inputs reach the network at all: only
 PwnedValidator issues one, and only when it is reached.
 */
module Chain {
  import opened LocalRules
  import opened Pwned

  /** What the validators depend on outside the password itself. */
  datatype Env = Env(cls: Classifier, sha1: string -> HexDigest, get: string -> string)

  datatype Validator =
    | LengthValidator
    | DigitValidator
    | SpecialCharValidator
    | UpperValidator
    | LowerValidator
    | PwnedValidator

  /** The list built by PasswordValidator.__init__, in its order. */
  const Validators: seq<Validator> := [
    LengthValidator,
    DigitValidator,
    SpecialCharValidator,
    UpperValidator,
    LowerValidator,
    PwnedValidator
  ]

  /** The message each validator raises on failure. */
  function Message(v: Validator): (msg: string)
  {
    match v
    case LengthValidator => LengthMessage
    case DigitValidator => DigitMessage
    case SpecialCharValidator => SpecialCharMessage
    case UpperValidator => UpperMessage
    case LowerValidator => LowerMessage
    case PwnedValidator => PwnedMessage
  }

  /** `validator(password).is_valid()` for one validator class. */
  function Check(v: Validator, password: string, env: Env): (r: Outcome)
    ensures r == Ok || r == Fail(Message(v))
  {
    match v
    case LengthValidator => LengthRule(password)
    case DigitValidator => DigitRule(password, env.cls)
    case SpecialCharValidator => SpecialCharRule(password, env.cls)
    case UpperValidator => UpperRule(password, env.cls)
    case LowerValidator => LowerRule(password, env.cls)
    case PwnedValidator => PwnedRule(password, env.sha1, env.get)
  }

  /** The URL of the range query for the password: the endpoint and the first five digest characters. */
  function RangeRequest(password: string, env: Env): (url: string)
  {
    var d := HashPass(password, env.sha1);
    LookupKey(d);
    RangeEndpoint + d[..PrefixLength]
  }

  /**
   The URLs a validator fetches: PwnedValidator fetches the range of the
   password's digest prefix, once; the other five fetch nothing.
   */
  function Requests(v: Validator, password: string, env: Env): (urls: seq<string>)
    ensures urls == [] <==> v != PwnedValidator
    ensures forall k :: 0 <= k < |urls| ==> urls[k] == RangeRequest(password, env)
    ensures |urls| <= 1
  {
    var d := HashPass(password, env.sha1);
    LookupKey(d);
    if v == PwnedValidator then [RangeUrl(d)] else []
  }

  /** How many times `v` occurs in the list. */
  function Count(v: Validator, validators: seq<Validator>): (n: nat)
  {
    if validators == [] then 0
    else (if validators[0] == v then 1 else 0) + Count(v, validators[1..])
  }

  /** The outcome of a run and the URLs it fetched, in order. */
  datatype Report = Report(outcome: Outcome, requests: seq<string>)

  /**
   The loop of PasswordValidator.is_valid over a list of validators. Every
   request it makes is the range query for the password, and there are no
   more of them than PwnedValidator entries in the list.
   */
  function Run(validators: seq<Validator>, password: string, env: Env): (report: Report)
    ensures forall k :: 0 <= k < |report.requests| ==> report.requests[k] == RangeRequest(password, env)
    ensures |report.requests| <= Count(PwnedValidator, validators)
    decreases |validators|
  {
    if validators == [] then Report(Ok, [])
    else
      var v := validators[0];
      var here := Check(v, password, env);
      if here.Fail? then Report(here, Requests(v, password, env))
      else
        var rest := Run(validators[1..], password, env);
        assert Count(PwnedValidator, validators) ==
          (if v == PwnedValidator then 1 else 0) + Count(PwnedValidator, validators[1..]);
        Report(rest.outcome, Requests(v, password, env) + rest.requests)
  }

  /**
   The run over the list PasswordValidator.__init__ builds: it makes at
   most one request, the range query for the password's digest prefix.
   */
  function Validate(password: string, env: Env): (report: Report)
    ensures |report.requests| <= 1
    ensures forall k :: 0 <= k < |report.requests| ==> report.requests[k] == RangeRequest(password, env)
  {
    assert Count(PwnedValidator, Validators) == 1;
    Run(Validators, password, env)
  }

  /** A run succeeds iff every validator in the list passes. */
  lemma {:induction false} RunAcceptsIff(validators: seq<Validator>, password: string, env: Env)
    ensures Run(validators, password, env).outcome == Ok <==>
      forall i :: 0 <= i < |validators| ==> Check(validators[i], password, env) == Ok
  {
    if validators != [] {
      var tail := validators[1..];
      RunAcceptsIff(tail, password, env);
      assert forall i :: 0 < i < |validators| ==> validators[i] == tail[i - 1];
    }
  }

  /**
   When validator `i` is the first to fail, the run fails with exactly its
   outcome, and the whole report (outcome and requests) is that of the list
   cut after `i`: nothing later in the list is evaluated.
   */
  lemma {:induction false} RunStopsAtFirstFailure(validators: seq<Validator>, i: nat, password: string, env: Env)
    requires i < |validators|
    requires Check(validators[i], password, env).Fail?
    requires forall j :: 0 <= j < i ==> Check(validators[j], password, env) == Ok
    ensures Run(validators, password, env).outcome == Check(validators[i], password, env)
    ensures Run(validators, password, env) == Run(validators[..i + 1], password, env)
  {
    if i > 0 {
      var tail := validators[1..];
      assert Check(validators[0], password, env) == Ok;
      assert validators[..i + 1][1..] == tail[..i];
      RunStopsAtFirstFailure(tail, i - 1, password, env);
    }
  }

  /** A failing run fails with the outcome of some validator, and every validator before it passed. */
  lemma {:induction false} RunFailureIsFirst(validators: seq<Validator>, password: string, env: Env)
    requires Run(validators, password, env).outcome.Fail?
    ensures exists i :: (0 <= i < |validators| &&
      Run(validators, password, env).outcome == Check(validators[i], password, env) &&
      forall j :: 0 <= j < i ==> Check(validators[j], password, env) == Ok)
  {
    var tail := validators[1..];
    if Check(validators[0], password, env) == Ok {
      RunFailureIsFirst(tail, password, env);
      var i :| 0 <= i < |tail| &&
        Run(tail, password, env).outcome == Check(tail[i], password, env) &&
        (forall j :: 0 <= j < i ==> Check(tail[j], password, env) == Ok);
      assert Run(validators, password, env).outcome == Check(validators[i + 1], password, env);
      assert forall j :: 0 < j < i + 1 ==> validators[j] == tail[j - 1];
    } else {
      assert Run(validators, password, env).outcome == Check(validators[0], password, env);
    }
  }

  /** No two validators share a message, so a failure names its validator. */
  lemma {:induction false} MessageNamesValidator(v: Validator, w: Validator)
    ensures Message(v) == Message(w) <==> v == w
  {
  }

  /** The five validators that need no network access all pass. */
  predicate LocalRulesPass(password: string, env: Env)
  {
    && LengthRule(password) == Ok
    && DigitRule(password, env.cls) == Ok
    && SpecialCharRule(password, env.cls) == Ok
    && UpperRule(password, env.cls) == Ok
    && LowerRule(password, env.cls) == Ok
  }

  /**
   The fixed order of PasswordValidator: Length, Digit, SpecialChar, Upper,
   Lower, then Pwned. The one request the run ever makes is the range query
   for the first five digest characters, and it is made only once all five
   local validators have passed.
   */
  lemma ValidateOrder(password: string, env: Env)
    ensures Validate(password, env).outcome ==
      if LengthRule(password).Fail? then LengthRule(password)
      else if DigitRule(password, env.cls).Fail? then DigitRule(password, env.cls)
      else if SpecialCharRule(password, env.cls).Fail? then SpecialCharRule(password, env.cls)
      else if UpperRule(password, env.cls).Fail? then UpperRule(password, env.cls)
      else if LowerRule(password, env.cls).Fail? then LowerRule(password, env.cls)
      else PwnedRule(password, env.sha1, env.get)
    ensures Validate(password, env).requests ==
      if LocalRulesPass(password, env) then [RangeRequest(password, env)] else []
  {
    ValidateReport(password, env);
    assert Check(LengthValidator, password, env) == LengthRule(password);
    assert Check(DigitValidator, password, env) == DigitRule(password, env.cls);
    assert Check(SpecialCharValidator, password, env) == SpecialCharRule(password, env.cls);
    assert Check(UpperValidator, password, env) == UpperRule(password, env.cls);
    assert Check(LowerValidator, password, env) == LowerRule(password, env.cls);
    assert Check(PwnedValidator, password, env) == PwnedRule(password, env.sha1, env.get);
  }

  /** The whole report of the fixed list, rule by rule. */
  lemma ValidateReport(password: string, env: Env)
    ensures Validate(password, env) ==
      if Check(LengthValidator, password, env).Fail? then Report(Check(LengthValidator, password, env), [])
      else if Check(DigitValidator, password, env).Fail? then Report(Check(DigitValidator, password, env), [])
      else if Check(SpecialCharValidator, password, env).Fail? then Report(Check(SpecialCharValidator, password, env), [])
      else if Check(UpperValidator, password, env).Fail? then Report(Check(UpperValidator, password, env), [])
      else if Check(LowerValidator, password, env).Fail? then Report(Check(LowerValidator, password, env), [])
      else Report(Check(PwnedValidator, password, env), [RangeRequest(password, env)])
  {
    var last := [LowerValidator, PwnedValidator];
    var middle := [SpecialCharValidator, UpperValidator] + last;
    assert Validators == [LengthValidator, DigitValidator] + middle;
    RunTwoLocal(LengthValidator, DigitValidator, middle, password, env);
    RunTwoLocal(SpecialCharValidator, UpperValidator, last, password, env);
    assert last == [LowerValidator] + [PwnedValidator];
    RunLocal(LowerValidator, [PwnedValidator], password, env);
    RunCons(PwnedValidator, [], password, env);
  }

  /** Two local validators in a row, then the rest of the list. */
  lemma RunTwoLocal(v: Validator, w: Validator, rest: seq<Validator>, password: string, env: Env)
    requires v != PwnedValidator && w != PwnedValidator
    ensures Run([v, w] + rest, password, env) ==
      if Check(v, password, env).Fail? then Report(Check(v, password, env), [])
      else if Check(w, password, env).Fail? then Report(Check(w, password, env), [])
      else Run(rest, password, env)
  {
    assert [v, w] + rest == [v] + ([w] + rest);
    RunLocal(v, [w] + rest, password, env);
    RunLocal(w, rest, password, env);
  }

  /**
   A validator other than PwnedValidator fetches nothing: a run that starts
   with it fails with its outcome or continues as the run over the rest.
   */
  lemma RunLocal(v: Validator, rest: seq<Validator>, password: string, env: Env)
    requires v != PwnedValidator
    ensures Run([v] + rest, password, env) ==
      if Check(v, password, env).Fail? then Report(Check(v, password, env), []) else Run(rest, password, env)
  {
    RunCons(v, rest, password, env);
  }

  /** One step of the run: the head validator, then the rest of the list. */
  lemma RunCons(v: Validator, rest: seq<Validator>, password: string, env: Env)
    ensures Run([v] + rest, password, env) ==
      if Check(v, password, env).Fail?
      then Report(Check(v, password, env), Requests(v, password, env))
      else Report(Run(rest, password, env).outcome, Requests(v, password, env) + Run(rest, password, env).requests)
  {
    assert ([v] + rest)[1..] == rest;
  }

  /**
   A password is accepted iff it has at least 8 characters, a digit, a
   character that is not alphanumeric, an upper-case and a lower-case
   character, and no row of the range response completes its digest.
   */
  lemma ValidateAcceptsIff(password: string, env: Env)
    ensures var d := HashPass(password, env.sha1);
      var rows := Rows(env.get(RangeEndpoint + d[..PrefixLength]));
      Validate(password, env).outcome == Ok <==>
        && |password| >= MinLength
        && (exists i :: 0 <= i < |password| && env.cls.isDigit(password[i]))
        && (exists i :: 0 <= i < |password| && !env.cls.isAlnum(password[i]))
        && (exists i :: 0 <= i < |password| && env.cls.isUpper(password[i]))
        && (exists i :: 0 <= i < |password| && env.cls.isLower(password[i]))
        && !(exists k :: 0 <= k < |rows| && FirstField(rows[k]) == d[PrefixLength..])
  {
    ValidateOrder(password, env);
    assert Validate(password, env).outcome == Ok <==>
      LocalRulesPass(password, env) && PwnedRule(password, env.sha1, env.get) == Ok;
  }

  /** A password shorter than 8 characters fails on length and never reaches the network. */
  lemma ShortPasswordRejected(password: string, env: Env)
    requires |password| < MinLength
    ensures Validate(password, env) == Report(Fail(LengthMessage), [])
  {
    ValidateOrder(password, env);
  }

  /**
   One pass of the loop of PasswordValidator.is_valid when validator `i`
   passes. `start` is the log before the loop and `log` the log before the
   pass: what the log still lacks of the whole run is the run over what
   follows validator `i`, once that validator's requests are appended.
   */
  lemma RunStepPasses(validators: seq<Validator>, i: nat, password: string, env: Env,
                      start: seq<string>, log: seq<string>)
    requires i < |validators| && Check(validators[i], password, env) == Ok
    requires Run(validators, password, env).outcome == Run(validators[i..], password, env).outcome
    requires start + Run(validators, password, env).requests == log + Run(validators[i..], password, env).requests
    ensures Run(validators, password, env).outcome == Run(validators[i + 1..], password, env).outcome
    ensures start + Run(validators, password, env).requests ==
      (log + Requests(validators[i], password, env)) + Run(validators[i + 1..], password, env).requests
  {
    assert validators[i..][1..] == validators[i + 1..];
  }

  /**
   The last pass of the loop when validator `i` fails: the run fails with
   its outcome, and the log is complete once that validator's requests are
   appended.
   */
  lemma RunStepFails(validators: seq<Validator>, i: nat, password: string, env: Env,
                     start: seq<string>, log: seq<string>)
    requires i < |validators| && Check(validators[i], password, env).Fail?
    requires Run(validators, password, env).outcome == Run(validators[i..], password, env).outcome
    requires start + Run(validators, password, env).requests == log + Run(validators[i..], password, env).requests
    ensures Run(validators, password, env).outcome == Check(validators[i], password, env)
    ensures log + Requests(validators[i], password, env) == start + Run(validators, password, env).requests
  {
  }

  /** The loop ran to the end: every validator passed and the log is complete. */
  lemma RunEnd(validators: seq<Validator>, password: string, env: Env, start: seq<string>, log: seq<string>)
    requires Run(validators, password, env).outcome == Run(validators[|validators|..], password, env).outcome
    requires start + Run(validators, password, env).requests ==
      log + Run(validators[|validators|..], password, env).requests
    ensures Run(validators, password, env).outcome == Ok
    ensures log == start + Run(validators, password, env).requests
  {
    assert validators[|validators|..] == [];
  }

  /**
   `validator_name(self._password).is_valid()` for the validator at hand;
   the URLs it fetches are appended to `log`.
   */
  method RunValidator(v: Validator, password: string, env: Env, log: RequestLog) returns (r: Outcome)
    modifies log
    ensures r == Check(v, password, env)
    ensures log.entries == old(log.entries) + Requests(v, password, env)
  {
    match v
    case LengthValidator => r := LengthRule(password);
    case DigitValidator => r := DigitRule(password, env.cls);
    case SpecialCharValidator => r := SpecialCharRule(password, env.cls);
    case UpperValidator => r := UpperRule(password, env.cls);
    case LowerValidator => r := LowerRule(password, env.cls);
    case PwnedValidator => r := PwnedIsValid(password, env.sha1, env.get, log);
  }

  class PasswordValidator {
    const password: string
    const validators: seq<Validator>

    constructor (password: string)
      ensures this.password == password
      ensures validators == Validators
    {
      this.password := password;
      validators := Validators;
    }

    /**
     Runs the validators one by one until one fails, or all have passed.
     The lookups made on the way are appended to `log`, and they are
     exactly those of the run: no validator after the first failure is
     called.
     */
    method IsValid(env: Env, log: RequestLog) returns (r: Outcome)
      modifies log
      ensures r == Run(validators, password, env).outcome
      ensures log.entries == old(log.entries) + Run(validators, password, env).requests
    {
      var i := 0;
      while i < |validators|
        invariant 0 <= i <= |validators|
        invariant Run(validators, password, env).outcome == Run(validators[i..], password, env).outcome
        invariant old(log.entries) + Run(validators, password, env).requests ==
          log.entries + Run(validators[i..], password, env).requests
      {
        ghost var before := log.entries;
        var here := RunValidator(validators[i], password, env, log);
        if here.Fail? {
          RunStepFails(validators, i, password, env, old(log.entries), before);
          return here;
        }
        RunStepPasses(validators, i, password, env, old(log.entries), before);
        i := i + 1;
      }
      RunEnd(validators, password, env, old(log.entries), log.entries);
      return Ok;
    }

    /** `get_password`: the password the validator was built with. */
    function GetPassword(): (p: string)
      ensures p == password
    {
      password
    }
  }

  /**
   One candidate through the chain, as main.py drives it: the validator
   object keeps the password it was built with, so what is written out
   for an accepted candidate is the input string unchanged.
   */
  method ValidateCandidate(password: string, env: Env, log: RequestLog)
    returns (outcome: Outcome, stored: string)
    modifies log
    ensures outcome == Validate(password, env).outcome
    ensures log.entries == old(log.entries) + Validate(password, env).requests
    ensures stored == password
  {
    var validator := new PasswordValidator(password);
    outcome := validator.IsValid(env, log);
    stored := validator.GetPassword();
  }
}
