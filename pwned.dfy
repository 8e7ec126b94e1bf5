/**
 PwnedValidator of validators.py: the k-anonymity range query of the
 "Pwned Passwords" service. The password's SHA-1 digest, as 40 upper-case
 hexadecimal characters, is split into a 5-character prefix, which is the
 only part sent to the service, and a 35-character suffix, which is looked
 up locally among the `SUFFIX:COUNT` rows of the response.

 SHA-1 with UTF-8 encoding (`sha1(p.encode('utf-8')).hexdigest()`) and the
 HTTP GET are outside the model: they are the parameters `sha1` (any
 function giving 40 lower-case hex characters) and `get` (the response
 body for a URL).
 */
module Pwned {
  import opened PyStr
  import opened LocalRules

  const DigestLength: nat := 40
  const PrefixLength: nat := 5

  const PwnedMessage := "Password has been pwned! "
  const RangeEndpoint := "https://api.pwnedpasswords.com/range/"
  const RowSeparator := "\r\n"
  const FieldSeparator := ":"

  predicate IsLowerHexDigit(c: char) { '0' <= c <= '9' || 'a' <= c <= 'f' }
  predicate IsUpperHexDigit(c: char) { '0' <= c <= '9' || 'A' <= c <= 'F' }

  /** 40 hexadecimal digits, lower-case as `hexdigest()` writes them. */
  predicate IsLowerHexDigest(s: string)
  {
    |s| == DigestLength && forall i :: 0 <= i < |s| ==> IsLowerHexDigit(s[i])
  }

  /** 40 hexadecimal digits in upper case, as `hash_pass` returns them. */
  predicate IsUpperHexDigest(s: string)
  {
    |s| == DigestLength && forall i :: 0 <= i < |s| ==> IsUpperHexDigit(s[i])
  }

  /** What `hexdigest()` returns for SHA-1: 40 lower-case hex characters. */
  type HexDigest = s: string | IsLowerHexDigest(s)
    witness "0000000000000000000000000000000000000000"

  /** PwnedValidator.hash_pass: the upper-cased hex digest of the password. */
  function HashPass(password: string, sha1: string -> HexDigest): (d: string)
    ensures IsUpperHexDigest(d)
  {
    Upper(sha1(password))
  }

  /**
   The URL requested: the endpoint followed by the upper-cased first five
   digest characters, so the key is five characters long and holds no
   lower-case letter.
   */
  function RangeUrl(digest: string): (url: string)
    requires |digest| >= PrefixLength
    ensures RangeEndpoint <= url && |url| == |RangeEndpoint| + PrefixLength
    ensures forall i :: |RangeEndpoint| <= i < |url| ==> !IsAsciiLower(url[i])
  {
    RangeEndpoint + Upper(digest[..PrefixLength])
  }

  /**
   The lookup is keyed by exactly the first five characters of the digest
   (upper-casing an upper-case digest changes nothing), so the request
   carries nothing of the remaining 35.
   */
  lemma {:induction false} LookupKey(digest: string)
    requires IsUpperHexDigest(digest)
    ensures RangeUrl(digest) == RangeEndpoint + digest[..PrefixLength]
    ensures |RangeUrl(digest)| == |RangeEndpoint| + PrefixLength
  {
    var key := digest[..PrefixLength];
    assert forall i :: 0 <= i < |key| ==> key[i] == digest[i];
    assert Upper(key) == key;
  }

  /**
   `row.split(':')[0]`: the longest prefix of the row without a colon, so
   it is the whole row or is followed by the row's first colon.
   */
  function FirstField(row: string): (field: string)
    ensures field <= row
    ensures ':' !in field
    ensures |field| < |row| ==> row[|field|] == ':'
  {
    var parts := Split(row, FieldSeparator);
    var field := parts[0];
    assert ':' !in field by {
      forall i | 0 <= i < |field| ensures field[i] != ':' {
        if field[i] == ':' {
          assert field[i..i + 1] == FieldSeparator;
          assert OccursAt(field, FieldSeparator, i);
        }
      }
    }
    field
  }

  /**
   `text.split('\r\n')`: the rows of a response body. There is at least
   one, none holds a CRLF, and joined with CRLF they give back the body.
   */
  function Rows(body: string): (rows: seq<string>)
    ensures |rows| >= 1
    ensures Join(rows, RowSeparator) == body
    ensures forall k :: 0 <= k < |rows| ==> !Contains(rows[k], RowSeparator)
  {
    Split(body, RowSeparator)
  }

  /**
   The test of line 169, `hashed_pass[0:5] + row_splited[0] == hashed_pass`:
   it holds exactly when the row's first field is the digest's suffix.
   */
  predicate RowMatches(digest: string, row: string): (b: bool)
    requires |digest| >= PrefixLength
    ensures b <==> FirstField(row) == digest[PrefixLength..]
  {
    PrefixMatch(digest, FirstField(row));
    digest[..PrefixLength] + FirstField(row) == digest
  }

  /** Prefix plus candidate equals digest exactly when the candidate is the digest's suffix. */
  lemma PrefixMatch(digest: string, x: string)
    requires |digest| >= PrefixLength
    ensures digest[..PrefixLength] + x == digest <==> x == digest[PrefixLength..]
  {
    if digest[..PrefixLength] + x == digest {
      assert (digest[..PrefixLength] + x)[PrefixLength..] == x;
    }
  }

  /**
   The pure half of PwnedValidator.is_valid: with the digest and the
   response body in hand, the password is pwned iff some row's first field
   is exactly the digest's 35-character suffix.
   */
  function PwnedCheck(digest: string, body: string): (r: Outcome)
    requires |digest| >= PrefixLength
    ensures r == Ok || r == Fail(PwnedMessage)
    ensures r == Fail(PwnedMessage) <==>
      exists k :: 0 <= k < |Rows(body)| && FirstField(Rows(body)[k]) == digest[PrefixLength..]
  {
    var rows := Rows(body);
    if exists k :: 0 <= k < |rows| && RowMatches(digest, rows[k]) then Fail(PwnedMessage) else Ok
  }

  /** PwnedValidator as a rule on the password: hash, query by prefix, scan the rows. */
  function PwnedRule(password: string, sha1: string -> HexDigest, get: string -> string): (r: Outcome)
    ensures r == Ok || r == Fail(PwnedMessage)
    ensures var d := HashPass(password, sha1);
      r == Fail(PwnedMessage) <==>
        exists k :: 0 <= k < |Rows(get(RangeEndpoint + d[..PrefixLength]))| &&
          FirstField(Rows(get(RangeEndpoint + d[..PrefixLength]))[k]) == d[PrefixLength..]
  {
    var d := HashPass(password, sha1);
    LookupKey(d);
    PwnedCheck(d, get(RangeUrl(d)))
  }

  /**
   The row loop of PwnedValidator.is_valid: split the body on CRLF and walk
   the rows, stopping at the first row whose first field completes the
   digest.
   */
  method ScanRows(digest: string, body: string) returns (r: Outcome)
    requires |digest| >= PrefixLength
    ensures r == PwnedCheck(digest, body)
  {
    var rows := Rows(body);
    var i := 0;
    while i < |rows|
      invariant 0 <= i <= |rows|
      invariant forall k :: 0 <= k < i ==> !RowMatches(digest, rows[k])
    {
      var field := FirstField(rows[i]);
      if digest[..PrefixLength] + field == digest {
        return Fail(PwnedMessage);
      }
      i := i + 1;
    }
    assert !exists k :: 0 <= k < |rows| && RowMatches(digest, rows[k]);
    return Ok;
  }

  /**
   A ghost record of the URLs fetched from the service, in order. The GET
   itself is the pure parameter `get`; `PwnedIsValid`, the one method that
   fetches, appends the URL to the log it is given, so a caller can tell
   which lookups were made on its behalf.
   */
  class RequestLog {
    ghost var entries: seq<string>

    constructor ()
      ensures entries == []
    {
      entries := [];
    }
  }

  /**
   PwnedValidator.is_valid: hash the password, fetch the range for the
   digest's prefix (logging the URL) and scan its rows.
   */
  method PwnedIsValid(password: string, sha1: string -> HexDigest, get: string -> string, log: RequestLog)
    returns (r: Outcome)
    modifies log
    ensures r == PwnedRule(password, sha1, get)
    ensures log.entries == old(log.entries) + [RangeUrl(HashPass(password, sha1))]
  {
    var hashed := HashPass(password, sha1);
    var url := RangeUrl(hashed);
    log.entries := log.entries + [url];
    r := ScanRows(hashed, get(url));
  }

  /** Whatever follows the first colon of a row (the count, trailing spaces) is ignored. */
  lemma {:induction false} FirstFieldBeforeColon(field: string, rest: string)
    requires ':' !in field
    ensures FirstField(field + FieldSeparator + rest) == field
  {
    SplitAtFirst(field, FieldSeparator, rest);
  }

  /** A row without a colon is its own first field. */
  lemma {:induction false} FirstFieldWithoutColon(row: string)
    requires ':' !in row
    ensures FirstField(row) == row
  {
    LacksFirstChar(row, FieldSeparator);
    SplitWithoutSeparator(row, FieldSeparator);
  }

  /**
   The comparison is case-sensitive: a first field holding a lower-case
   letter never matches, because the digest is upper-case.
   */
  lemma LowerCaseFieldNeverMatches(digest: string, row: string, j: nat)
    requires IsUpperHexDigest(digest)
    requires j < |FirstField(row)| && 'a' <= FirstField(row)[j] <= 'z'
    ensures !RowMatches(digest, row)
  {
    PrefixMatch(digest, FirstField(row));
  }
}
