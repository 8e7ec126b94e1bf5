/**
 The concrete cases of validators_test.py, restated as lemmas about the
 model. Character classes use the ASCII classifier; the mocked range
 response of the Pwned tests is the `get` parameter.
 */
module Scenarios {
  import opened LocalRules
  import opened Pwned
  import opened Chain

  lemma LengthCases()
    ensures LengthRule("aQ1w./I9") == Ok
    ensures LengthRule("hj&KąS=+0A") == Ok
    ensures LengthRule("Q1w./I9") == Fail(LengthMessage)
  {
  }

  lemma DigitCases()
    ensures DigitRule("aQ1w./I9", Ascii) == Ok
    ensures DigitRule("hj&KąS=+0A", Ascii) == Ok
    ensures DigitRule("asdfghjk", Ascii) == Fail(DigitMessage)
  {
    assert Ascii.isDigit("aQ1w./I9"[2]);
    assert Ascii.isDigit("hj&KąS=+0A"[8]);
  }

  lemma SpecialCharCases()
    ensures SpecialCharRule("aQ1w.I9", Ascii) == Ok
    ensures SpecialCharRule("aQ1wI/9", Ascii) == Ok
    ensures SpecialCharRule("aQ1wI9", Ascii) == Fail(SpecialCharMessage)
    ensures SpecialCharRule("", Ascii) == Fail(SpecialCharMessage)
  {
    assert !Ascii.isAlnum("aQ1w.I9"[4]);
    assert !Ascii.isAlnum("aQ1wI/9"[5]);
  }

  lemma UpperCases()
    ensures UpperRule("ASDFGHJK", Ascii) == Ok
    ensures UpperRule("asdfghjK", Ascii) == Ok
    ensures UpperRule("a1d.f!g`h:\"jk", Ascii) == Fail(UpperMessage)
  {
    assert Ascii.isUpper("ASDFGHJK"[0]);
    assert Ascii.isUpper("asdfghjK"[7]);
  }

  lemma LowerCases()
    ensures LowerRule("ASDFGHjK", Ascii) == Ok
    ensures LowerRule("asdfghjK", Ascii) == Ok
    ensures LowerRule("A1D.F!G`H:\"JK", Ascii) == Fail(LowerMessage)
  {
    assert Ascii.isLower("ASDFGHjK"[6]);
    assert Ascii.isLower("asdfghjK"[0]);
  }

  /** One `SUFFIX:COUNT` row of a range response. */
  function Row(suffix: string, count: string): (row: string)
    ensures suffix + FieldSeparator <= row
  {
    suffix + FieldSeparator + count
  }

  /** A range response of three rows joined by CRLF. */
  function Body(a: string, b: string, c: string): (body: string)
    ensures a + RowSeparator <= body
  {
    a + RowSeparator + b + RowSeparator + c
  }

  /** The mocked digest of the Pwned tests: prefix D8CFD followed by a 35-character suffix. */
  const TestSuffix := "950EB9C46987DE5C45730D0F4DA6B2E2BED"
  const TestDigest := "D8CFD" + TestSuffix
  const FirstSuffix := "0077CA954CC79F02509ED44973DD93D21CE"
  const OtherSuffix := "850EB9C46987DE5C45730D0F4DA6B2E2BED"
  const LastSuffix := "00F626A857CEB9F52485169D8ABDC285085"
  /** The mocked response of the positive test: its second row lists the suffix. */
  const ListedBody := Body(Row(FirstSuffix, "3"), Row(TestSuffix, "2"), Row(LastSuffix, "1 "))
  /** The mocked response of the negative test: the same rows with 850EB in place of 950EB. */
  const UnlistedBody := Body(Row(FirstSuffix, "3"), Row(OtherSuffix, "2"), Row(LastSuffix, "1 "))

  /** A body of three rows, none holding a carriage return, splits into exactly those rows. */
  lemma ThreeRows(a: string, b: string, c: string)
    requires '\r' !in a && '\r' !in b && '\r' !in c
    ensures Rows(Body(a, b, c)) == [a, b, c]
  {
    var bc := b + RowSeparator + c;
    assert Body(a, b, c) == a + RowSeparator + bc;
    PyStr.SplitAtFirst(a, RowSeparator, bc);
    assert Rows(a + RowSeparator + bc) == [a] + Rows(bc);
    PyStr.SplitAtFirst(b, RowSeparator, c);
    assert Rows(bc) == [b] + Rows(c);
    PyStr.LacksFirstChar(c, RowSeparator);
    PyStr.SplitWithoutSeparator(c, RowSeparator);
    assert Rows(c) == [c];
  }

  lemma TestDigestIsUpperHex()
    ensures IsUpperHexDigest(TestDigest)
    ensures TestDigest[PrefixLength..] == TestSuffix
  {
  }

  /** The mocked suffixes hold neither a colon nor a carriage return. */
  predicate Plain(s: string)
  {
    ':' !in s && '\r' !in s
  }

  lemma TestSuffixesPlain()
    ensures Plain(FirstSuffix) && Plain(TestSuffix) && Plain(OtherSuffix) && Plain(LastSuffix)
  {
    assert Plain(FirstSuffix);
    assert Plain(TestSuffix);
    assert Plain(OtherSuffix);
  }

  /** A row built from a plain suffix and a count without carriage return has no carriage return. */
  lemma PlainRow(suffix: string, count: string)
    requires Plain(suffix) && '\r' !in count
    ensures '\r' !in Row(suffix, count)
  {
    assert forall i :: 0 <= i < |Row(suffix, count)| ==>
      Row(suffix, count)[i] in suffix || Row(suffix, count)[i] == ':' || Row(suffix, count)[i] in count;
  }

  lemma TestSuffixUnlisted()
    ensures FirstSuffix != TestSuffix && OtherSuffix != TestSuffix && LastSuffix != TestSuffix
  {
    assert TestSuffix[0] == '9';
    assert FirstSuffix[0] == '0' && OtherSuffix[0] == '8' && LastSuffix[0] == '0';
  }

  /** An upper-case hex digest holds neither a colon nor a carriage return. */
  lemma DigestSuffixPlain(digest: string)
    requires IsUpperHexDigest(digest)
    ensures Plain(digest[PrefixLength..])
  {
    var suffix := digest[PrefixLength..];
    forall i | 0 <= i < |suffix| ensures suffix[i] != ':' && suffix[i] != '\r' {
      assert suffix[i] == digest[i + PrefixLength];
    }
  }

  /**
   A three-row response whose middle row lists the digest's suffix, with
   any count after the colon, makes the check fail with the pwned message,
   whatever the other two rows hold.
   */
  lemma ListedInMiddle(digest: string, a: string, count: string, c: string)
    requires IsUpperHexDigest(digest)
    requires '\r' !in a && '\r' !in count && '\r' !in c
    ensures PwnedCheck(digest, Body(a, Row(digest[PrefixLength..], count), c)) == Fail(PwnedMessage)
  {
    var suffix := digest[PrefixLength..];
    DigestSuffixPlain(digest);
    PlainRow(suffix, count);
    ThreeRows(a, Row(suffix, count), c);
    FirstFieldBeforeColon(suffix, count);
    assert FirstField(Rows(Body(a, Row(suffix, count), c))[1]) == suffix;
  }

  /**
   A three-row response of `SUFFIX:COUNT` rows, none of whose suffixes is
   the digest's, makes the check pass.
   */
  lemma NoneOfThreeListed(digest: string, s1: string, c1: string, s2: string, c2: string, s3: string, c3: string)
    requires IsUpperHexDigest(digest)
    requires Plain(s1) && Plain(s2) && Plain(s3)
    requires '\r' !in c1 && '\r' !in c2 && '\r' !in c3
    requires s1 != digest[PrefixLength..] && s2 != digest[PrefixLength..] && s3 != digest[PrefixLength..]
    ensures PwnedCheck(digest, Body(Row(s1, c1), Row(s2, c2), Row(s3, c3))) == Ok
  {
    PlainRow(s1, c1);
    PlainRow(s2, c2);
    PlainRow(s3, c3);
    ThreeRows(Row(s1, c1), Row(s2, c2), Row(s3, c3));
    FirstFieldBeforeColon(s1, c1);
    FirstFieldBeforeColon(s2, c2);
    FirstFieldBeforeColon(s3, c3);
    var rows := Rows(Body(Row(s1, c1), Row(s2, c2), Row(s3, c3)));
    assert rows == [Row(s1, c1), Row(s2, c2), Row(s3, c3)];
    forall k | 0 <= k < |rows| ensures FirstField(rows[k]) != digest[PrefixLength..] {
      if k == 0 {
        assert FirstField(rows[k]) == s1;
      } else if k == 1 {
        assert FirstField(rows[k]) == s2;
      } else {
        assert FirstField(rows[k]) == s3;
      }
    }
  }

  /** The positive test: the second mocked row lists the suffix, so the password is pwned. */
  lemma ListedCase()
    ensures IsUpperHexDigest(TestDigest)
    ensures PwnedCheck(TestDigest, ListedBody) == Fail(PwnedMessage)
  {
    TestDigestIsUpperHex();
    TestSuffixesPlain();
    PlainRow(FirstSuffix, "3");
    PlainRow(LastSuffix, "1 ");
    ListedInMiddle(TestDigest, Row(FirstSuffix, "3"), "2", Row(LastSuffix, "1 "));
  }

  /** The negative test: with 850EB in place of 950EB no row completes the digest. */
  lemma UnlistedCase()
    ensures IsUpperHexDigest(TestDigest)
    ensures PwnedCheck(TestDigest, UnlistedBody) == Ok
  {
    TestDigestIsUpperHex();
    TestSuffixesPlain();
    TestSuffixUnlisted();
    NoneOfThreeListed(TestDigest, FirstSuffix, "3", OtherSuffix, "2", LastSuffix, "1 ");
  }

  /**
   The Pwned tests end to end: a password whose digest is the mocked one,
   with the service answering the mocked prefix D8CFD, is rejected as pwned
   when its suffix is listed and passes when it is not.
   */
  lemma PwnedRuleCases(password: string, sha1: string -> HexDigest, get: string -> string)
    requires HashPass(password, sha1) == TestDigest
    ensures get(RangeEndpoint + "D8CFD") == ListedBody ==> PwnedRule(password, sha1, get) == Fail(PwnedMessage)
    ensures get(RangeEndpoint + "D8CFD") == UnlistedBody ==> PwnedRule(password, sha1, get) == Ok
  {
    LookupKey(TestDigest);
    assert TestDigest[..PrefixLength] == "D8CFD";
    ListedCase();
    UnlistedCase();
  }

  /** 'asdfghjk' has 8 characters but no digit: rejected on the digit rule, and no request is made. */
  lemma NoDigitRejected(sha1: string -> HexDigest, get: string -> string)
    ensures Validate("asdfghjk", Env(Ascii, sha1, get)) == Report(Fail(DigitMessage), [])
  {
    DigitCases();
    ValidateOrder("asdfghjk", Env(Ascii, sha1, get));
  }

  lemma GoodPasswordPassesLocalRules(env: Env)
    requires env.cls == Ascii
    ensures LocalRulesPass("aQ1w./I9", env)
  {
    var p := "aQ1w./I9";
    LengthCases();
    DigitCases();
    assert !Ascii.isAlnum(p[4]);
    assert Ascii.isUpper(p[1]);
    assert Ascii.isLower(p[0]);
  }

  /**
   'aQ1w./I9' passes the five local rules; when the range response lists
   nothing (an empty body) it is accepted, after exactly one request.
   */
  lemma GoodPasswordAccepted(sha1: string -> HexDigest, get: string -> string)
    requires forall url :: get(url) == ""
    ensures var env := Env(Ascii, sha1, get);
      Validate("aQ1w./I9", env) ==
        Report(Ok, [RangeEndpoint + HashPass("aQ1w./I9", sha1)[..PrefixLength]])
  {
    var p := "aQ1w./I9";
    var env := Env(Ascii, sha1, get);
    GoodPasswordPassesLocalRules(env);
    ValidateOrder(p, env);
    var d := HashPass(p, sha1);
    EmptyBodyUnlisted(d);
  }

  /** An empty range response lists no suffix of a digest longer than its prefix. */
  lemma EmptyBodyUnlisted(digest: string)
    requires |digest| > PrefixLength
    ensures PwnedCheck(digest, "") == Ok
  {
    PyStr.LacksFirstChar("", RowSeparator);
    PyStr.SplitWithoutSeparator("", RowSeparator);
    FirstFieldWithoutColon("");
    assert Rows("") == [""];
  }
}
