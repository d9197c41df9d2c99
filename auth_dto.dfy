/** Registration and password-change bodies. The password rule is the
    regular expression
      ^(?=.*[a-z])(?=.*[A-Z])(?=.*\d)(?=.*[@$!%*?&#])[A-Za-z\d@$!%*?&#]
    with a minimum length of 8, read with JavaScript's semantics: `.` does
    not match a line terminator, so each lookahead only sees the first line,
    and without an end anchor only the first character is restricted. */
module AuthDto {
  import opened Common

  predicate IsLower(c: char) { 'a' <= c <= 'z' }
  predicate IsUpper(c: char) { 'A' <= c <= 'Z' }
  predicate IsDigit(c: char) { '0' <= c <= '9' }
  predicate IsSpecial(c: char) { c in "@$!%*?&#" }

  /** The characters JavaScript's `.` refuses to match. */
  predicate IsLineTerminator(c: char) {
    c == '\n' || c == '\r' || c == '\U{2028}' || c == '\U{2029}'
  }

  /** The class `[A-Za-z\d@$!%*?&#]` the first character must be in. */
  predicate IsAllowed(c: char) { IsLower(c) || IsUpper(c) || IsDigit(c) || IsSpecial(c) }

  predicate HasSome(s: string, cls: char -> bool) {
    exists i :: 0 <= i < |s| && cls(s[i])
  }

  /** The text a `.*` at the start of the string can run over: everything
      before the first line terminator. */
  function FirstLine(p: string): (r: string)
    ensures r <= p
    ensures forall i :: 0 <= i < |r| ==> !IsLineTerminator(r[i])
    ensures |r| < |p| ==> IsLineTerminator(p[|r|])
  {
    if |p| == 0 || IsLineTerminator(p[0]) then []
    else [p[0]] + FirstLine(p[1..])
  }

  /** `@MinLength(8)` and `@Matches(...)` together. */
  predicate StrongPassword(p: string) {
    var line := FirstLine(p);
    && |p| >= 8
    && HasSome(line, IsLower) && HasSome(line, IsUpper)
    && HasSome(line, IsDigit) && HasSome(line, IsSpecial)
    && IsAllowed(p[0])
  }

  /** An accepted password has at least 8 characters, begins with an
      allowed character and contains a lowercase letter, an uppercase
      letter, a digit and a special character. */
  lemma StrongHasEveryClass(p: string)
    requires StrongPassword(p)
    ensures |p| >= 8 && IsAllowed(p[0])
    ensures HasSome(p, IsLower) && HasSome(p, IsUpper) && HasSome(p, IsDigit) && HasSome(p, IsSpecial)
  {
    var line := FirstLine(p);
    forall cls: char -> bool | HasSome(line, cls) ensures HasSome(p, cls) {
      var i :| 0 <= i < |line| && cls(line[i]);
      assert p[i] == line[i];
    }
  }

  /** Whatever follows an accepted password keeps it accepted: the pattern
      is anchored at the start only. */
  lemma {:induction false} AnchoredAtStartOnly(p: string, s: string)
    requires StrongPassword(p)
    ensures StrongPassword(p + s)
  {
    FirstLinePrefix(p, s);
    var line, line' := FirstLine(p), FirstLine(p + s);
    forall cls: char -> bool | HasSome(line, cls) ensures HasSome(line', cls) {
      var i :| 0 <= i < |line| && cls(line[i]);
      assert line'[i] == line[i];
    }
    assert (p + s)[0] == p[0];
  }

  /** The first line of `p` is a prefix of the first line of `p + s`. */
  lemma {:induction false} FirstLinePrefix(p: string, s: string)
    ensures FirstLine(p) <= FirstLine(p + s)
  {
    if |p| > 0 && !IsLineTerminator(p[0]) {
      assert (p + s)[1..] == p[1..] + s;
      FirstLinePrefix(p[1..], s);
    }
  }

  /** Characters outside the allowed class are accepted after the first. */
  lemma OnlyFirstCharRestricted()
    ensures StrongPassword("Aa1@ ~ <>")
  {
    var p := "Aa1@ ~ <>";
    NoBreakIsOneLine(p);
    assert IsUpper(p[0]) && IsLower(p[1]) && IsDigit(p[2]) && IsSpecial(p[3]);
  }

  /** A digit and a special character after a line break do not count. */
  lemma LookaheadsStopAtLineBreak()
    ensures !StrongPassword("Abcdefgh\n1@")
  {
    var q := "Abcdefgh\n1@";
    assert FirstLine(q) == "Abcdefgh";
    assert !HasSome("Abcdefgh", IsDigit);
  }

  /** A string without a line terminator is all one line. */
  lemma NoBreakIsOneLine(p: string)
    requires forall i :: 0 <= i < |p| ==> !IsLineTerminator(p[i])
    ensures FirstLine(p) == p
  {
    var r := FirstLine(p);
    if |r| < |p| { assert IsLineTerminator(p[|r|]); }
  }

  /** `@IsEnum(UserRole)`: only CUSTOMER and VENDOR can be registered. */
  function RegisterRole(token: string): (r: Option<Role>)
    ensures r.Some? ==> r.value != ADMIN
    ensures r == Some(CUSTOMER) <==> token == "CUSTOMER"
    ensures r == Some(VENDOR) <==> token == "VENDOR"
  {
    if token == "CUSTOMER" then Some(CUSTOMER)
    else if token == "VENDOR" then Some(VENDOR)
    else None
  }

  datatype RegisterDto = RegisterDto(
    email: string, password: string, name: string, role: string,
    phone: Option<string>, address: Option<string>, city: Option<string>,
    vendorName: Option<string>, vendorAddress: Option<string>,
    vendorCity: Option<string>, vendorPhone: Option<string>,
    description: Option<string>)

  /** The registration body: a non-empty email (its format is a library
      check, not modelled), a strong password, a non-empty name, a
      registrable role; the phone is required only of customers and the
      four vendor fields only of vendors. */
  predicate ValidRegister(dto: RegisterDto) {
    && dto.email != ""
    && StrongPassword(dto.password)
    && dto.name != ""
    && RegisterRole(dto.role).Some?
    && (RegisterRole(dto.role) == Some(CUSTOMER) ==> TruthyString(dto.phone))
    && (RegisterRole(dto.role) == Some(VENDOR) ==>
          && TruthyString(dto.vendorName) && TruthyString(dto.vendorAddress)
          && TruthyString(dto.vendorCity) && TruthyString(dto.vendorPhone))
  }

  /** The role decides which fields are required: a customer needs no
      vendor fields and a vendor needs no phone. */
  lemma RoleConditionalFields(dto: RegisterDto)
    requires dto.email != "" && StrongPassword(dto.password) && dto.name != ""
    ensures dto.role == "CUSTOMER" ==> (ValidRegister(dto) <==> TruthyString(dto.phone))
    ensures dto.role == "VENDOR" ==>
      (ValidRegister(dto) <==>
         TruthyString(dto.vendorName) && TruthyString(dto.vendorAddress)
         && TruthyString(dto.vendorCity) && TruthyString(dto.vendorPhone))
    ensures dto.role == "ADMIN" ==> !ValidRegister(dto)
  {
  }

  datatype ChangePasswordDto = ChangePasswordDto(oldPassword: string, newPassword: string)

  /** A non-empty old password and a new one under the registration rule. */
  predicate ValidChangePassword(dto: ChangePasswordDto) {
    dto.oldPassword != "" && StrongPassword(dto.newPassword)
  }

  /** An accepted password change carries an old password and a new one of
      at least 8 characters with every class; the same new password is
      accepted on registration. */
  lemma ChangePasswordRule(dto: ChangePasswordDto, reg: RegisterDto)
    requires ValidChangePassword(dto)
    ensures dto.oldPassword != "" && |dto.newPassword| >= 8
    ensures HasSome(dto.newPassword, IsLower) && HasSome(dto.newPassword, IsUpper)
      && HasSome(dto.newPassword, IsDigit) && HasSome(dto.newPassword, IsSpecial)
    ensures (&& reg.password == dto.newPassword && reg.email != "" && reg.name != ""
             && reg.role == "CUSTOMER" && TruthyString(reg.phone)) ==> ValidRegister(reg)
  {
    StrongHasEveryClass(dto.newPassword);
  }
}
