/**
 * The auth controller: the validation chain of registration, the login
 * decision and its `next` redirect, the rules of a password change, the
 * checks on a profile picture, and the parsing of the free-text entries of
 * the preferences form.
 */
module AuthController {
  import opened Common
  import opened PySeq
  import opened Strings
  import opened Models
  import opened Uploads

  const MIN_USERNAME_LENGTH := 3
  const MIN_PASSWORD_LENGTH := 6

  // ---------------------------------------------------------------- register

  /** The fields of the registration form; `requestedRole` is whatever a client sends as `role`. */
  datatype RegisterForm = RegisterForm(
    username: string,
    email: string,
    fullName: string,
    password: string,
    confirmPassword: string,
    requestedRole: string,
    department: string)

  datatype RegisterError =
    | FieldsRequired
    | UsernameTooShort
    | PasswordTooShort
    | PasswordsDiffer
    | InvalidEmail
    | UsernameTaken
    | EmailTaken

  /** What `create_user` is given; the password is hashed there. */
  datatype Registration = Registration(
    username: string,
    email: string,
    fullName: string,
    password: string,
    role: string,
    department: Option<string>)

  predicate UsernameInUse(users: seq<User>, username: string) {
    exists k :: 0 <= k < |users| && users[k].username == username
  }

  predicate EmailInUse(users: seq<User>, email: string) {
    exists k :: 0 <= k < |users| && users[k].email == email
  }

  /** `form.get(...).strip() or None`. */
  function StrippedOrNone(s: string): (r: Option<string>)
    ensures r.None? <==> Strip(s) == ""
    ensures r.Some? ==> r.value == Strip(s)
  {
    if Strip(s) == "" then None else Some(Strip(s))
  }

  /**
   * The guard chain of `register`, in the source's order, then the account
   * it creates. The role is not read from the form.
   */
  function RegisterDecision(users: seq<User>, form: RegisterForm): Result<Registration, RegisterError> {
    CheckRegistration(users, Strip(form.username), Strip(form.email), Strip(form.fullName),
      form.password, form.confirmPassword, form.department)
  }

  /** The guard chain on the stripped text fields and the raw passwords. */
  function CheckRegistration(users: seq<User>, username: string, email: string, fullName: string,
                             password: string, confirm: string, department: string): Result<Registration, RegisterError> {
    if username == "" || email == "" || fullName == "" || password == "" then Err(FieldsRequired)
    else if |username| < MIN_USERNAME_LENGTH then Err(UsernameTooShort)
    else if |password| < MIN_PASSWORD_LENGTH then Err(PasswordTooShort)
    else if password != confirm then Err(PasswordsDiffer)
    else if '@' !in email || '.' !in email then Err(InvalidEmail)
    else if UsernameInUse(users, username) then Err(UsernameTaken)
    else if EmailInUse(users, email) then Err(EmailTaken)
    else Ok(Registration(username, email, fullName, password, ROLE_STUDENT, StrippedOrNone(department)))
  }

  /**
   * Each answer of `register` and the exact condition that produces it: a
   * later check is reached only when every earlier one passed, so a taken
   * username is reported even when the email is taken too.
   */
  lemma RegisterGuardOrder(users: seq<User>, form: RegisterForm)
    ensures var username, email := Strip(form.username), Strip(form.email);
      var filled := username != "" && email != "" && Strip(form.fullName) != "" && form.password != "";
      var longName := filled && |username| >= 3;
      var longPassword := longName && |form.password| >= 6;
      var confirmed := longPassword && form.password == form.confirmPassword;
      var wellFormed := confirmed && '@' in email && '.' in email;
      var freeName := wellFormed && !UsernameInUse(users, username);
      var freeEmail := freeName && !EmailInUse(users, email);
      var r := RegisterDecision(users, form);
      (r == Err(FieldsRequired) <==> !filled) &&
      (r == Err(UsernameTooShort) <==> filled && !longName) &&
      (r == Err(PasswordTooShort) <==> longName && !longPassword) &&
      (r == Err(PasswordsDiffer) <==> longPassword && !confirmed) &&
      (r == Err(InvalidEmail) <==> confirmed && !wellFormed) &&
      (r == Err(UsernameTaken) <==> wellFormed && !freeName) &&
      (r == Err(EmailTaken) <==> freeName && !freeEmail) &&
      (r.Ok? <==> freeEmail)
  {
  }

  /**
   * An account that registration creates is a student account, whatever
   * role the form asked for, and its fields pass every check.
   */
  lemma RegisteredAccount(users: seq<User>, form: RegisterForm)
    requires RegisterDecision(users, form).Ok?
    ensures var a := RegisterDecision(users, form).value;
      a.role == ROLE_STUDENT &&
      a.username == Strip(form.username) && a.email == Strip(form.email) && a.fullName == Strip(form.fullName) &&
      a.password == form.password == form.confirmPassword &&
      |a.username| >= MIN_USERNAME_LENGTH && |a.password| >= MIN_PASSWORD_LENGTH &&
      '@' in a.email && '.' in a.email && a.fullName != "" &&
      !UsernameInUse(users, a.username) && !EmailInUse(users, a.email)
  {
    var username, email, fullName := Strip(form.username), Strip(form.email), Strip(form.fullName);
    assert RegisterDecision(users, form) ==
      CheckRegistration(users, username, email, fullName, form.password, form.confirmPassword, form.department);
    RegisterGuardOrder(users, form);
    assert RegisterDecision(users, form) ==
      Ok(Registration(username, email, fullName, form.password, ROLE_STUDENT, StrippedOrNone(form.department)));
  }

  /** The role field of the form has no effect on the outcome. */
  lemma RequestedRoleIgnored(users: seq<User>, form: RegisterForm, role: string)
    ensures RegisterDecision(users, form.(requestedRole := role)) == RegisterDecision(users, form)
  {
    var other := form.(requestedRole := role);
    assert other.username == form.username && other.email == form.email && other.fullName == form.fullName;
    assert other.password == form.password && other.confirmPassword == form.confirmPassword;
    assert other.department == form.department;
  }

  /** Usernames and emails are unique across the stored accounts. */
  predicate UniqueAccounts(users: seq<User>) {
    forall i, j :: 0 <= i < j < |users| ==> users[i].username != users[j].username && users[i].email != users[j].email
  }

  /** Storing the account registration accepts keeps usernames and emails unique. */
  lemma RegisterKeepsUnique(users: seq<User>, form: RegisterForm, id: int)
    requires UniqueAccounts(users)
    requires RegisterDecision(users, form).Ok?
    ensures var a := RegisterDecision(users, form).value;
      UniqueAccounts(users + [User(id, a.username, a.email, a.fullName, a.role, true)])
  {
    var a := RegisterDecision(users, form).value;
    RegisteredAccount(users, form);
    AddFreshKeepsUnique(users, User(id, a.username, a.email, a.fullName, a.role, true));
  }

  lemma AddFreshKeepsUnique(users: seq<User>, u: User)
    requires UniqueAccounts(users)
    requires !UsernameInUse(users, u.username) && !EmailInUse(users, u.email)
    ensures UniqueAccounts(users + [u])
  {
    var all := users + [u];
    forall i, j | 0 <= i < j < |all| ensures all[i].username != all[j].username && all[i].email != all[j].email {
      if j == |users| {
        assert all[i] == users[i];
      }
    }
  }

  // ---------------------------------------------------------------- login

  /** Where a successful login goes. */
  datatype Landing = NextPage(path: string) | AdminDashboard | ResourceList

  datatype LoginOutcome =
    | CredentialsRequired
    | InvalidCredentials
    | Deactivated
    | LoggedIn(user: User, landing: Landing)

  /** The first stored account with that username, as `fetchone` returns it. */
  function FindByUsername(users: seq<User>, username: string): (r: Option<User>)
    ensures r.Some? ==> r.value in users && r.value.username == username
    ensures r.None? <==> !UsernameInUse(users, username)
    decreases |users|
  {
    if |users| == 0 then None
    else if users[0].username == username then Some(users[0])
    else
      var r := FindByUsername(users[1..], username);
      assert UsernameInUse(users, username) <==> UsernameInUse(users[1..], username) by {
        if UsernameInUse(users, username) {
          var k :| 0 <= k < |users| && users[k].username == username;
          assert users[1..][k - 1] == users[k];
        }
        if UsernameInUse(users[1..], username) {
          var k :| 0 <= k < |users[1..]| && users[1..][k].username == username;
          assert users[k + 1] == users[1..][k];
        }
      }
      r
  }

  /** `next_page and next_page.startswith('/')`, the guard of login as written. */
  predicate NextAcceptedAsWritten(next: Option<string>) {
    next.Some? && next.value != "" && StartsWith(next.value, "/")
  }

  /**
   * A path on this site: it starts with one `/` that is not followed by a
   * second slash or a backslash, which browsers read as the start of a
   * host name.
   */
  predicate LocalPath(p: string) {
    |p| >= 1 && p[0] == '/' && (|p| == 1 || (p[1] != '/' && p[1] != '\\'))
  }

  /** The landing after login as written: any `next` that starts with a slash is followed. */
  function LandingAsWritten(next: Option<string>, user: User): (l: Landing)
    ensures l.NextPage? <==> NextAcceptedAsWritten(next)
  {
    if NextAcceptedAsWritten(next) then NextPage(next.value)
    else if IsAdmin(user) || IsStaff(user) then AdminDashboard
    else ResourceList
  }

  /** The landing after login with `next` restricted to paths on this site. */
  function LoginLanding(next: Option<string>, user: User): Landing {
    if next.Some? && LocalPath(next.value) then NextPage(next.value)
    else if IsAdmin(user) || IsStaff(user) then AdminDashboard
    else ResourceList
  }

  /** As written, `next=//evil.example` sends the user to another host. */
  lemma OpenRedirectAsWritten(user: User)
    ensures LandingAsWritten(Some("//evil.example"), user) == NextPage("//evil.example")
    ensures !LocalPath("//evil.example")
  {
    assert StartsWith("//evil.example", "/");
  }

  /**
   * The corrected landing follows `next` exactly when it is a local path,
   * and otherwise goes to the dashboard for admins and staff and to the
   * resource list for everyone else.
   */
  lemma LandingIsLocal(next: Option<string>, user: User)
    ensures var l := LoginLanding(next, user);
      (l.NextPage? <==> next.Some? && LocalPath(next.value)) &&
      (l.NextPage? ==> l.path == next.value && LocalPath(l.path)) &&
      (l == AdminDashboard <==> !(next.Some? && LocalPath(next.value)) && (IsAdmin(user) || IsStaff(user)))
  {
  }

  /** The two guards differ only on a `next` that starts with `//` or `/\`. */
  lemma LandingDiffersOnlyOnHosts(next: Option<string>, user: User)
    ensures LoginLanding(next, user) != LandingAsWritten(next, user) <==>
      next.Some? && |next.value| >= 2 && next.value[0] == '/' && (next.value[1] == '/' || next.value[1] == '\\')
  {
  }

  /**
   * The decision of `login`: both fields are required, the account is the
   * first one with that username, the password must check, and a
   * deactivated account is refused only after its password checked.
   * `checkPassword` stands for the bcrypt comparison. A successful login
   * lands by the corrected `next` guard `LoginLanding`, not by the written
   * `LandingAsWritten`; the two differ only on a `next` starting with `//`
   * or `/\` (`LandingDiffersOnlyOnHosts`).
   */
  function LoginDecision(users: seq<User>, username: string, password: string, next: Option<string>,
                         checkPassword: (User, string) -> bool): LoginOutcome {
    Authenticate(users, Strip(username), password, next, checkPassword)
  }

  /** The decision of `login` on the stripped username. */
  function Authenticate(users: seq<User>, name: string, password: string, next: Option<string>,
                        checkPassword: (User, string) -> bool): LoginOutcome {
    if name == "" || password == "" then CredentialsRequired
    else
      var found := FindByUsername(users, name);
      if found.None? || !checkPassword(found.value, password) then InvalidCredentials
      else if !found.value.isActive then Deactivated
      else LoggedIn(found.value, LoginLanding(next, found.value))
  }

  /**
   * A login succeeds exactly when both fields are given and the account with
   * that username exists, is active and its password checks.
   */
  lemma LoginSucceeds(users: seq<User>, username: string, password: string, next: Option<string>,
                      checkPassword: (User, string) -> bool)
    ensures var out := LoginDecision(users, username, password, next, checkPassword);
      (out.LoggedIn? ==> out.user in users && out.user.username == Strip(username) && out.user.isActive &&
                         checkPassword(out.user, password) && password != "") &&
      ((Strip(username) != "" && password != "" && FindByUsername(users, Strip(username)).Some? &&
        checkPassword(FindByUsername(users, Strip(username)).value, password) &&
        FindByUsername(users, Strip(username)).value.isActive) ==> out.LoggedIn?) &&
      (out == CredentialsRequired <==> Strip(username) == "" || password == "") &&
      (out == InvalidCredentials ==> !UsernameInUse(users, Strip(username)) ||
                                     !checkPassword(FindByUsername(users, Strip(username)).value, password))
  {
  }

  /** A wrong password never reveals whether the account is deactivated. */
  lemma WrongPasswordHidesDeactivation(users: seq<User>, username: string, password: string, next: Option<string>,
                                       checkPassword: (User, string) -> bool)
    requires Strip(username) != "" && password != ""
    requires forall u :: !checkPassword(u, password)
    ensures LoginDecision(users, username, password, next, checkPassword) == InvalidCredentials
  {
  }

  // ---------------------------------------------------------------- change password

  datatype PasswordError = WrongCurrentPassword | NewPasswordTooShort | NewPasswordsDiffer | NewPasswordUnchanged

  /**
   * The guard chain of `change_password`; `currentChecks` is the bcrypt
   * comparison of the current password. The answer is the password to store.
   */
  function ChangePasswordDecision(currentChecks: bool, current: string, newPassword: string, confirm: string): Result<string, PasswordError> {
    if !currentChecks then Err(WrongCurrentPassword)
    else if |newPassword| < MIN_PASSWORD_LENGTH then Err(NewPasswordTooShort)
    else if newPassword != confirm then Err(NewPasswordsDiffer)
    else if current == newPassword then Err(NewPasswordUnchanged)
    else Ok(newPassword)
  }

  /** Each answer of a password change and the exact condition that produces it. */
  lemma ChangePasswordOrder(currentChecks: bool, current: string, newPassword: string, confirm: string)
    ensures var r := ChangePasswordDecision(currentChecks, current, newPassword, confirm);
      (r == Err(WrongCurrentPassword) <==> !currentChecks) &&
      (r == Err(NewPasswordTooShort) <==> currentChecks && |newPassword| < 6) &&
      (r == Err(NewPasswordsDiffer) <==> currentChecks && |newPassword| >= 6 && newPassword != confirm) &&
      (r == Err(NewPasswordUnchanged) <==> currentChecks && |newPassword| >= 6 && newPassword == confirm && current == newPassword) &&
      (r.Ok? <==> currentChecks && |newPassword| >= 6 && newPassword == confirm && current != newPassword) &&
      (r.Ok? ==> r.value == newPassword)
  {
  }

  // ---------------------------------------------------------------- profile picture

  const PICTURE_EXTENSIONS: set<string> := {"png", "jpg", "jpeg", "gif"}

  /**
   * The uploaded `profile_picture`: the browser's file name, the name
   * `secure_filename` makes of it, and the file's length in bytes.
   */
  datatype Picture = Picture(filename: string, securedName: string, size: nat)

  datatype PictureError = NoFileSelected | InvalidFileType | FileTooLarge

  /** The checks of `upload_profile_picture`, in order; the answer is the extension the stored file gets. */
  function PictureDecision(file: Option<Picture>): Result<string, PictureError> {
    if file.None? || file.value.filename == "" then Err(NoFileSelected)
    else if !HasAllowedExtension(file.value.securedName, PICTURE_EXTENSIONS) then Err(InvalidFileType)
    else if !SizeAllowed(file.value.size) then Err(FileTooLarge)
    else Ok(Extension(file.value.securedName).value)
  }

  /**
   * A picture is accepted exactly when a file was chosen, its secured name
   * ends in an allowed extension in any letter case, and it holds at most
   * 5 MB; the type is checked before the size.
   */
  lemma PictureOrder(file: Option<Picture>)
    ensures var r := PictureDecision(file);
      var chosen := file.Some? && file.value.filename != "";
      var typed := chosen && HasAllowedExtension(file.value.securedName, PICTURE_EXTENSIONS);
      (r == Err(NoFileSelected) <==> !chosen) &&
      (r == Err(InvalidFileType) <==> chosen && !typed) &&
      (r == Err(FileTooLarge) <==> typed && file.value.size > 5 * 1024 * 1024) &&
      (r.Ok? <==> typed && file.value.size <= 5 * 1024 * 1024) &&
      (r.Ok? ==> r.value in PICTURE_EXTENSIONS)
  {
  }

  /** `uploads/profiles/user_<id>_<stamp>.<ext>`, the path stored on the account. */
  function ProfileImagePath(userId: int, stamp: string, ext: string): string {
    "uploads/profiles/user_" + IntToString(userId) + "_" + stamp + "." + ext
  }

  /** The stored file name keeps the accepted extension, so it passes the same test again. */
  lemma StoredPictureAllowed(file: Option<Picture>, userId: int, stamp: string)
    requires PictureDecision(file).Ok?
    ensures var ext := PictureDecision(file).value;
      Extension(ProfileImagePath(userId, stamp, ext)) == Some(ext) &&
      HasAllowedExtension(ProfileImagePath(userId, stamp, ext), PICTURE_EXTENSIONS)
  {
    var ext := PictureDecision(file).value;
    var raw := AfterLast(file.value.securedName, '.');
    assert ext == Lower(raw);
    ExtensionOfName("uploads/profiles/user_" + IntToString(userId) + "_" + stamp, ext);
    LowerIdempotent(raw);
  }

  /** A chosen file named `<base>.<ext>` is judged by its lower-cased extension, then by its size. */
  lemma PictureOfName(name: string, base: string, ext: string, size: nat)
    requires '.' !in ext && name == base + "." + ext
    ensures PictureDecision(Some(Picture(name, name, size))) ==
      if Lower(ext) !in PICTURE_EXTENSIONS then Err(InvalidFileType)
      else if size > MAX_UPLOAD_SIZE then Err(FileTooLarge)
      else Ok(Lower(ext))
  {
    ExtensionOfName(base, ext);
    assert name != "" by { assert |name| > |base|; }
  }

  /** An upper-case extension is accepted, and a picture of exactly 5 MB still passes. */
  lemma UpperCasePngAccepted()
    ensures PictureDecision(Some(Picture("Me.PNG", "Me.PNG", 5 * 1024 * 1024))) == Ok("png")
  {
    PictureOfName("Me.PNG", "Me", "PNG", 5 * 1024 * 1024);
    LowerExamples();
  }

  /** WebP is accepted for resource images but not for profile pictures. */
  lemma WebpPictureRefused()
    ensures PictureDecision(Some(Picture("me.webp", "me.webp", 10))) == Err(InvalidFileType)
  {
    PictureOfName("me.webp", "me", "webp", 10);
    LowerExamples();
  }

  /** One byte over 5 MB is refused. */
  lemma OversizedPictureRefused()
    ensures PictureDecision(Some(Picture("me.gif", "me.gif", 5 * 1024 * 1024 + 1))) == Err(FileTooLarge)
  {
    PictureOfName("me.gif", "me", "gif", 5 * 1024 * 1024 + 1);
    LowerExamples();
  }

  lemma LowerExamples()
    ensures Lower("PNG") == "png" && Lower("webp") == "webp" && Lower("gif") == "gif"
    ensures "png" in PICTURE_EXTENSIONS && "webp" !in PICTURE_EXTENSIONS && "gif" in PICTURE_EXTENSIONS
  {
  }

  // ---------------------------------------------------------------- preferences

  /** The comma-separated parts kept by the comprehension: stripped, blanks dropped. */
  function NonBlankParts(parts: seq<string>): (r: seq<string>)
    ensures |r| <= |parts|
    decreases |parts|
  {
    if |parts| == 0 then []
    else
      var last := Strip(parts[|parts| - 1]);
      NonBlankParts(parts[..|parts| - 1]) + (if last == "" then [] else [last])
  }

  /** The entries a custom text field adds: nothing when it is blank. */
  function CustomEntries(custom: string): seq<string> {
    var text := Strip(custom);
    if text == "" then [] else NonBlankParts(Split(text, ','))
  }

  /**
   * `list.extend([i.strip() for i in custom.split(',') if i.strip()])`
   * behind `if custom:`, on the stripped field: the checkbox values first,
   * then the custom entries in their order.
   */
  method ExtendWithCustom(checked: seq<string>, custom: string) returns (list: seq<string>)
    ensures list == checked + CustomEntries(custom)
  {
    var added: seq<string> := [];
    var text := Strip(custom);
    if text != "" {
      var parts := Split(text, ',');
      var i := 0;
      while i < |parts|
        invariant 0 <= i <= |parts|
        invariant added == NonBlankParts(parts[..i])
      {
        NonBlankStep(parts, i);
        var entry := Strip(parts[i]);
        if entry != "" {
          added := added + [entry];
        }
        i := i + 1;
      }
      assert parts[..i] == parts;
    }
    list := checked + added;
  }

  /** One more part: it is appended, stripped, unless it is blank. */
  lemma NonBlankStep(parts: seq<string>, i: nat)
    requires i < |parts|
    ensures Strip(parts[i]) != "" ==> NonBlankParts(parts[..i + 1]) == NonBlankParts(parts[..i]) + [Strip(parts[i])]
    ensures Strip(parts[i]) == "" ==> NonBlankParts(parts[..i + 1]) == NonBlankParts(parts[..i])
  {
    assert parts[..i + 1][..i] == parts[..i];
  }

  /** A clean entry: non-empty, without surrounding blanks and without a comma. */
  predicate CleanEntry(e: string) {
    e != "" && Strip(e) == e && ',' !in e
  }

  /** Every kept part is clean. */
  lemma {:induction false} NonBlankPartsClean(parts: seq<string>)
    requires forall k :: 0 <= k < |parts| ==> ',' !in parts[k]
    ensures forall k :: 0 <= k < |NonBlankParts(parts)| ==> CleanEntry(NonBlankParts(parts)[k])
    decreases |parts|
  {
    if |parts| > 0 {
      var last := parts[|parts| - 1];
      NonBlankPartsClean(parts[..|parts| - 1]);
      StripIdempotent(last);
      StripKeepsAbsent(last, ',');
    }
  }

  /** Every part that is not blank is kept, stripped. */
  lemma {:induction false} NonBlankPartsComplete(parts: seq<string>, k: nat)
    requires k < |parts| && Strip(parts[k]) != ""
    ensures Strip(parts[k]) in NonBlankParts(parts)
    decreases |parts|
  {
    if k < |parts| - 1 {
      assert parts[..|parts| - 1][k] == parts[k];
      NonBlankPartsComplete(parts[..|parts| - 1], k);
    }
  }

  /** Parts that are already clean are kept as they are. */
  lemma {:induction false} NonBlankPartsOfClean(parts: seq<string>)
    requires forall k :: 0 <= k < |parts| ==> CleanEntry(parts[k])
    ensures NonBlankParts(parts) == parts
    decreases |parts|
  {
    if |parts| > 0 {
      var init, last := parts[..|parts| - 1], parts[|parts| - 1];
      InitAndLast(parts);
      NonBlankPartsOfClean(init);
    }
  }

  /** Splitting off the last part, when it is clean and the others are clean. */
  lemma InitAndLast(parts: seq<string>)
    requires |parts| > 0 && forall k :: 0 <= k < |parts| ==> CleanEntry(parts[k])
    ensures var init := parts[..|parts| - 1];
      (forall k :: 0 <= k < |init| ==> CleanEntry(init[k])) &&
      NonBlankParts(parts) == NonBlankParts(init) + [parts[|parts| - 1]] &&
      init + [parts[|parts| - 1]] == parts
  {
    assert CleanEntry(parts[|parts| - 1]);
  }

  /**
   * The custom entries are clean, and every non-blank comma-separated part
   * of the field is among them.
   */
  lemma CustomEntriesShape(custom: string)
    ensures forall k :: 0 <= k < |CustomEntries(custom)| ==> CleanEntry(CustomEntries(custom)[k])
    ensures forall p :: p in Split(Strip(custom), ',') && Strip(p) != "" ==> Strip(p) in CustomEntries(custom)
  {
    var text := Strip(custom);
    if text != "" {
      var parts := Split(text, ',');
      NonBlankPartsClean(parts);
      forall p | p in parts && Strip(p) != "" ensures Strip(p) in CustomEntries(custom) {
        var k :| 0 <= k < |parts| && parts[k] == p;
        NonBlankPartsComplete(parts, k);
      }
    } else {
      assert Split(text, ',') == [""];
    }
  }

  /** Clean entries joined with commas parse back to themselves. */
  lemma CustomEntriesRoundTrip(entries: seq<string>)
    requires |entries| >= 1
    requires forall k :: 0 <= k < |entries| ==> CleanEntry(entries[k])
    ensures CustomEntries(Join(entries, ',')) == entries
  {
    var text := Join(entries, ',');
    var first, last := entries[0], entries[|entries| - 1];
    assert first != "" && last != "";
    StripNonEmptyEnds(first);
    StripNonEmptyEnds(last);
    JoinFirst(entries, ',');
    JoinLast(entries, ',');
    StripNoSpaceEnds(text);
    SplitJoin(entries, ',');
    NonBlankPartsOfClean(entries);
  }

  /** A stripped non-empty text starts and ends with a non-blank. */
  lemma StripNonEmptyEnds(e: string)
    requires e != "" && Strip(e) == e
    ensures !IsSpace(e[0]) && !IsSpace(e[|e| - 1])
  {
  }

  /** The preferences form: checkbox lists and the two free-text fields. */
  datatype PreferencesForm = PreferencesForm(
    interests: seq<string>,
    interestsCustom: string,
    studyEnvironment: seq<string>,
    studyTime: seq<string>,
    groupSize: seq<string>,
    accessibilityNeeds: seq<string>,
    preferredLocations: seq<string>,
    locationsCustom: string)

  /** What `update_preferences` is given. */
  datatype Preferences = Preferences(
    interests: seq<string>,
    studyPreferences: map<string, seq<string>>,
    accessibilityNeeds: seq<string>,
    preferredLocations: seq<string>)

  /** The test of `[a for a in accessibility_raw if a]`: a value is kept when it is not empty. */
  const NonEmptyValue: string -> bool := (a: string) => a != ""

  /**
   * The POST branch of `preferences`: custom entries follow the checked
   * values, a study preference is recorded only when something was checked,
   * and empty accessibility values are dropped.
   */
  method CollectPreferences(form: PreferencesForm) returns (prefs: Preferences)
    ensures prefs.interests == form.interests + CustomEntries(form.interestsCustom)
    ensures prefs.preferredLocations == form.preferredLocations + CustomEntries(form.locationsCustom)
    ensures StudyPreferencesOf(prefs.studyPreferences, form.studyEnvironment, form.studyTime, form.groupSize)
    ensures prefs.accessibilityNeeds == Filter(form.accessibilityNeeds, NonEmptyValue)
    ensures forall a :: a in prefs.accessibilityNeeds <==> a in form.accessibilityNeeds && a != ""
  {
    var interests := ExtendWithCustom(form.interests, form.interestsCustom);
    var study := StudyPreferences(form.studyEnvironment, form.studyTime, form.groupSize);
    var accessibility := Filter(form.accessibilityNeeds, NonEmptyValue);
    var locations := ExtendWithCustom(form.preferredLocations, form.locationsCustom);
    prefs := Preferences(interests, study, accessibility, locations);
  }

  /** Each study key is present exactly when its list is non-empty, and then holds that list. */
  predicate StudyPreferencesOf(study: map<string, seq<string>>, envs: seq<string>, times: seq<string>, sizes: seq<string>) {
    study.Keys <= {"environment", "time", "group_size"} &&
    ("environment" in study <==> envs != []) &&
    ("time" in study <==> times != []) &&
    ("group_size" in study <==> sizes != []) &&
    ("environment" in study ==> study["environment"] == envs) &&
    ("time" in study ==> study["time"] == times) &&
    ("group_size" in study ==> study["group_size"] == sizes)
  }

  /** The `study_preferences` dictionary, one key per non-empty checkbox list. */
  method StudyPreferences(envs: seq<string>, times: seq<string>, sizes: seq<string>) returns (study: map<string, seq<string>>)
    ensures StudyPreferencesOf(study, envs, times, sizes)
  {
    study := map[];
    if envs != [] {
      study := study["environment" := envs];
    }
    if times != [] {
      study := study["time" := times];
    }
    if sizes != [] {
      study := study["group_size" := sizes];
    }
  }
}
