/**
  Bean validation of the two OTP request bodies. phoneNumber carries
  @NotBlank and @Pattern(regexp = "^\+[1-9]\d{1,14}$"), the E.164 shape of
  ITU-T Recommendation E.164 clause 6: a '+', a country code that does not
  start with 0, at most 15 digits in all. The validator matches the whole
  value, \d means an ASCII digit, a null value passes @Pattern and fails
  @NotBlank, and @NotBlank trims before testing for emptiness.
 */
module OtpRequests {
  import opened Wrappers
  import opened JavaText

  const PhoneRequiredMessage := "Phone number is required"
  const SendOtpPatternMessage := "Phone number must be in E.164 format (e.g. +16419198503)"
  const VerifyOtpPatternMessage := "Phone number must be in E.164 format (e.g. +123455)"

  /** The shape the pattern describes, read as a whole. */
  predicate E164Shape(s: string) {
    3 <= |s| <= 16 && s[0] == '+' && '1' <= s[1] <= '9'
    && forall i | 2 <= i < |s| :: IsDigit(s[i])
  }

  // ---------------------------------------------------------------------
  // The pattern as the matcher runs it

  /** A matcher state: 0 before '+', 1 before the leading digit, k >= 2
      after k - 2 further digits; -1 once the input cannot match. */
  function Step(state: int, c: char): (next: int)
    ensures next == -1 || next == state + 1
  {
    if state == 0 then (if c == '+' then 1 else -1)
    else if state == 1 then (if '1' <= c <= '9' then 2 else -1)
    else if 2 <= state < 16 && IsDigit(c) then state + 1
    else -1
  }

  /** The state after reading s from the start. */
  function Scan(s: string): int {
    if s == [] then 0 else Step(Scan(s[..|s| - 1]), s[|s| - 1])
  }

  /** The whole value matched: \d{1,14} ended with 1 to 14 digits read. */
  predicate MatchesPattern(s: string) {
    3 <= Scan(s) <= 16
  }

  /** A prefix that can still be completed leaves the matcher in the state
      that counts its characters. */
  predicate PrefixAlive(s: string) {
    |s| <= 16
    && (|s| >= 1 ==> s[0] == '+')
    && (|s| >= 2 ==> '1' <= s[1] <= '9')
    && forall i | 2 <= i < |s| :: IsDigit(s[i])
  }

  lemma {:induction false} ScanCounts(s: string)
    ensures Scan(s) == (if PrefixAlive(s) then |s| else -1)
  {
    if s != [] {
      var init := s[..|s| - 1];
      ScanCounts(init);
      if PrefixAlive(s) {
        assert PrefixAlive(init);
      } else if PrefixAlive(init) {
        assert Scan(s) == Step(|init|, s[|s| - 1]);
      } else {
        assert Step(-1, s[|s| - 1]) == -1;
      }
    }
  }

  /** The matcher accepts exactly the E.164 shape. */
  lemma MatchesPatternIsE164(s: string)
    ensures MatchesPattern(s) <==> E164Shape(s)
  {
    ScanCounts(s);
  }

  /** An accepted number has between 2 and 15 digits in all, every
      character after the '+' is a digit, and the country code does not
      start with 0. */
  lemma AcceptedDigits(s: string)
    requires MatchesPattern(s)
    ensures 2 <= |s| - 1 <= 15
    ensures forall i | 1 <= i < |s| :: IsDigit(s[i])
    ensures s[1] != '0'
  {
    MatchesPatternIsE164(s);
  }

  /** Rejected: a leading zero after '+', a number without '+', and any
      space, dash or parenthesis. */
  lemma RejectedShapes(s: string)
    ensures |s| >= 2 && s[..2] == "+0" ==> !MatchesPattern(s)
    ensures |s| >= 1 && s[0] != '+' ==> !MatchesPattern(s)
    ensures (exists i | 0 <= i < |s| :: s[i] in {' ', '-', '(', ')'}) ==> !MatchesPattern(s)
  {
    MatchesPatternIsE164(s);
    if |s| >= 2 && s[..2] == "+0" {
      assert s[1] == "+0"[1];
    }
  }

  /** The examples in the two messages are accepted. */
  lemma MessageExamplesAccepted()
    ensures MatchesPattern("+16419198503")
    ensures MatchesPattern("+123455")
  {
    MatchesPatternIsE164("+16419198503");
    MatchesPatternIsE164("+123455");
  }

  /** A matching number is never blank, so @NotBlank only adds to @Pattern
      for a null value. */
  lemma MatchedIsNotBlank(s: string)
    ensures MatchesPattern(s) ==> !TrimsToEmpty(s)
    ensures s != [] && TrimsToEmpty(s) ==> !MatchesPattern(s)
  {
    MatchesPatternIsE164(s);
    if s != [] {
      assert TrimsToEmpty(s) ==> s[0] <= ' ';
    }
  }

  // ---------------------------------------------------------------------
  // The constraint violations of each request body

  datatype Violation = Violation(field: string, message: string)

  /** @NotBlank and @Pattern on one phone number, with the pattern's
      message. */
  function PhoneViolations(phone: Option<string>, patternMessage: string): (v: set<Violation>)
    ensures v == {} <==> phone.Some? && MatchesPattern(phone.value)
    ensures phone.None? ==> v == {Violation("phoneNumber", PhoneRequiredMessage)}
    ensures phone.Some? && phone.value != [] && TrimsToEmpty(phone.value) ==>
      v == {Violation("phoneNumber", PhoneRequiredMessage), Violation("phoneNumber", patternMessage)}
  {
    var required := if phone.None? || TrimsToEmpty(phone.value) then {Violation("phoneNumber", PhoneRequiredMessage)} else {};
    var pattern := if phone.Some? && !MatchesPattern(phone.value) then {Violation("phoneNumber", patternMessage)} else {};
    if phone.Some? then
      MatchedIsNotBlank(phone.value);
      required + pattern
    else
      required + pattern
  }

  datatype SendOtpRequest = SendOtpRequest(phoneNumber: Option<string>)

  datatype VerifyOtpRequest = VerifyOtpRequest(phoneNumber: Option<string>, code: Option<string>)

  function SendOtpViolations(r: SendOtpRequest): (v: set<Violation>)
    ensures v == {} <==> r.phoneNumber.Some? && E164Shape(r.phoneNumber.value)
  {
    if r.phoneNumber.Some? then
      MatchesPatternIsE164(r.phoneNumber.value);
      PhoneViolations(r.phoneNumber, SendOtpPatternMessage)
    else
      PhoneViolations(r.phoneNumber, SendOtpPatternMessage)
  }

  /** code has no constraint, so it never adds a violation. */
  function VerifyOtpViolations(r: VerifyOtpRequest): (v: set<Violation>)
    ensures v == {} <==> r.phoneNumber.Some? && E164Shape(r.phoneNumber.value)
    ensures forall x | x in v :: x.field == "phoneNumber"
  {
    if r.phoneNumber.Some? then
      MatchesPatternIsE164(r.phoneNumber.value);
      PhoneViolations(r.phoneNumber, VerifyOtpPatternMessage)
    else
      PhoneViolations(r.phoneNumber, VerifyOtpPatternMessage)
  }

  /** Both bodies accept the same phone numbers, whatever the code; they
      differ only in the example their pattern message quotes. */
  lemma SameAcceptance(phone: Option<string>, code: Option<string>)
    ensures SendOtpViolations(SendOtpRequest(phone)) == {} <==> VerifyOtpViolations(VerifyOtpRequest(phone, code)) == {}
    ensures |SendOtpViolations(SendOtpRequest(phone))| == |VerifyOtpViolations(VerifyOtpRequest(phone, code))|
  {
    var required := Violation("phoneNumber", PhoneRequiredMessage);
    var sendPattern := Violation("phoneNumber", SendOtpPatternMessage);
    var verifyPattern := Violation("phoneNumber", VerifyOtpPatternMessage);
    assert required != sendPattern && required != verifyPattern by {
      assert |PhoneRequiredMessage| != |SendOtpPatternMessage|;
      assert |PhoneRequiredMessage| != |VerifyOtpPatternMessage|;
    }
  }
}
