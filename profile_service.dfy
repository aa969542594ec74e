/** Profile settings (src/services/ProfileService.js): the record an update
    sends, the storage path of an uploaded avatar, and the password rule. The
    database, the file store, the identity provider and the clock are
    parameters. */
module ProfileService {
  import opened Common

  datatype Profile = Profile(id: string, displayName: Option<string>, bio: Option<string>, avatarUrl: Option<string>)

  /** The `updates` object: `avatarUrl` is None when the key is absent. */
  datatype ProfileUpdates = ProfileUpdates(displayName: Option<string>, bio: Option<string>, avatarUrl: Option<string>)

  /** The uploaded file, of which only the name is read. */
  datatype File = File(name: string)

  /** What `auth.updateUser` resolves to. */
  datatype AccountData = AccountData(userId: string)

  const MissingUserUpdateMessage: string := "Missing userId for updateProfile"
  const MissingUserUploadMessage: string := "Missing userId for uploadAvatar"
  const MissingFileMessage: string := "No file provided for avatar upload"
  const ShortPasswordMessage: string := "Password must be at least 6 characters"
  const MinPasswordLength: nat := 6

  // ------------------------------------------------------------ updateProfile

  /** `{ display_name, bio }`, plus `avatar_url` only when it is truthy. */
  function BuildUpdates(displayName: Option<string>, bio: Option<string>, avatarUrl: Option<string>): (u: ProfileUpdates)
    ensures u.displayName == displayName && u.bio == bio
    ensures u.avatarUrl.Some? <==> TruthyText(avatarUrl)
    ensures u.avatarUrl.Some? ==> u.avatarUrl == avatarUrl
  {
    ProfileUpdates(displayName, bio, if TruthyText(avatarUrl) then avatarUrl else None)
  }

  /** `updateProfile`; `update` answers the update of the row with that id. */
  function UpdateProfile(userId: Option<string>, displayName: Option<string>, bio: Option<string>, avatarUrl: Option<string>,
                         update: (string, ProfileUpdates) -> Result<seq<Profile>>): (r: Result<Option<Profile>>)
    ensures !TruthyText(userId) ==> r == Err(Thrown(MissingUserUpdateMessage))
    ensures TruthyText(userId) ==>
      var answer := update(userId.value, BuildUpdates(displayName, bio, avatarUrl));
      && (answer.Err? ==> r == Err(answer.error))
      && (answer.Ok? ==> r.Ok? && (r.value.None? <==> answer.value == []))
      && (answer.Ok? && answer.value != [] ==> r.value == Some(answer.value[0]))
  {
    if !TruthyText(userId) then Err(Thrown(MissingUserUpdateMessage))
    else
      var answer := update(userId.value, BuildUpdates(displayName, bio, avatarUrl));
      if answer.Err? then Err(answer.error)
      else if |answer.value| > 0 then Ok(Some(answer.value[0]))
      else Ok(None)
  }

  // ------------------------------------------------------------- uploadAvatar

  /** Pieces of `s` between occurrences of `sep`: a reference for
      `s.split(sep)`. */
  function Split(s: string, sep: char): (parts: seq<string>)
    ensures |parts| >= 1
    ensures forall p :: p in parts ==> sep !in p
    ensures Join(parts, sep) == s
  {
    if s == [] then [[]]
    else
      var init := Split(s[..|s| - 1], sep);
      var c := s[|s| - 1];
      assert s == s[..|s| - 1] + [c];
      if c == sep then
        assert (init + [[]])[..|init|] == init;
        init + [[]]
      else
        JoinExtendLast(init, sep, c);
        init[..|init| - 1] + [init[|init| - 1] + [c]]
  }

  /** `parts.join(sep)` */
  function Join(parts: seq<string>, sep: char): string
    requires |parts| >= 1
  {
    if |parts| == 1 then parts[0]
    else Join(parts[..|parts| - 1], sep) + [sep] + parts[|parts| - 1]
  }

  /** Appending a character to the last piece appends it to the joined text. */
  lemma JoinExtendLast(parts: seq<string>, sep: char, c: char)
    requires |parts| >= 1
    ensures Join(parts[..|parts| - 1] + [parts[|parts| - 1] + [c]], sep) == Join(parts, sep) + [c]
  {
    var longer := parts[..|parts| - 1] + [parts[|parts| - 1] + [c]];
    if |parts| > 1 {
      assert longer[..|longer| - 1] == parts[..|parts| - 1];
    }
  }

  /** The extension of a file name: the text after its last '.', or the whole
      name when it has none. */
  function Extension(name: string): (ext: string)
    ensures '.' !in ext
    ensures |ext| <= |name| && ext == name[|name| - |ext|..]
    ensures |ext| < |name| ==> name[|name| - |ext| - 1] == '.'
  {
    if name == [] then []
    else if name[|name| - 1] == '.' then []
    else
      var init := name[..|name| - 1];
      var ext := Extension(init);
      assert name == init + [name[|name| - 1]];
      ext + [name[|name| - 1]]
  }

  /** `file.name.split(".").pop()` is the extension. */
  lemma {:induction false} ExtensionIsLastPiece(name: string)
    ensures var parts := Split(name, '.'); Extension(name) == parts[|parts| - 1]
  {
    if name != [] {
      ExtensionIsLastPiece(name[..|name| - 1]);
    }
  }

  /** Decimal digits of a natural number, as a template literal prints it. */
  function DecimalString(n: nat): (s: string)
    ensures s != []
    ensures forall c :: c in s ==> '0' <= c <= '9'
    ensures s[0] == '0' ==> n == 0
  {
    if n < 10 then [DigitChar(n)] else DecimalString(n / 10) + [DigitChar(n % 10)]
  }

  /** The number a string of decimal digits denotes. */
  function DigitsValue(s: string): nat {
    if s == [] then 0
    else
      var d := s[|s| - 1] as int - '0' as int;
      DigitsValue(s[..|s| - 1]) * 10 + (if 0 <= d then d else 0)
  }

  /** The printed timestamp reads back as the timestamp. */
  lemma {:induction false} DecimalStringValue(n: nat)
    ensures DigitsValue(DecimalString(n)) == n
  {
    if n >= 10 {
      var s := DecimalString(n);
      assert s[..|s| - 1] == DecimalString(n / 10);
      DecimalStringValue(n / 10);
    }
  }

  function DigitChar(d: nat): (c: char)
    requires d < 10
    ensures '0' <= c <= '9'
  {
    ('0' as int + d) as char
  }

  /** `${userId}/${Date.now()}.${fileExt}` */
  function AvatarPath(userId: string, now: nat, fileName: string): (path: string)
    ensures |path| > |userId| && path[..|userId|] == userId && path[|userId|] == '/'
  {
    var path := userId + "/" + DecimalString(now) + "." + Extension(fileName);
    assert path[..|userId|] == userId;
    path
  }

  /** A text without the separator is a single piece. */
  lemma {:induction false} SplitWithoutSeparator(s: string, sep: char)
    requires sep !in s
    ensures Split(s, sep) == [s]
  {
    if s != [] {
      SplitWithoutSeparator(s[..|s| - 1], sep);
    }
  }

  /** Two separator-free texts joined by one separator split back into those
      two texts. */
  lemma {:induction false} SplitAtOnlySeparator(a: string, b: string, sep: char)
    requires sep !in a && sep !in b
    ensures Split(a + [sep] + b, sep) == [a, b]
  {
    if b == [] {
      assert (a + [sep] + b)[..|a + [sep] + b| - 1] == a;
      SplitWithoutSeparator(a, sep);
    } else {
      var s := a + [sep] + b;
      assert s[..|s| - 1] == a + [sep] + b[..|b| - 1];
      SplitAtOnlySeparator(a, b[..|b| - 1], sep);
      assert b == b[..|b| - 1] + [b[|b| - 1]];
    }
  }

  /** The path is the user's folder followed by the file name. */
  lemma AvatarPathFolder(userId: string, now: nat, fileName: string)
    ensures var path := AvatarPath(userId, now, fileName);
      && path[..|userId| + 1] == userId + "/"
      && path[|userId| + 1..] == DecimalString(now) + "." + Extension(fileName)
  {
    var path := AvatarPath(userId, now, fileName);
    var tail := DecimalString(now) + "." + Extension(fileName);
    assert path == userId + "/" + tail;
  }

  /** The file name splits at '.' into the timestamp and the extension, and
      the timestamp reads back as the upload time. */
  lemma AvatarFileNameParts(now: nat, fileName: string)
    ensures Split(DecimalString(now) + "." + Extension(fileName), '.') == [DecimalString(now), Extension(fileName)]
    ensures DigitsValue(DecimalString(now)) == now
  {
    assert '.' !in DecimalString(now);
    SplitAtOnlySeparator(DecimalString(now), Extension(fileName), '.');
    DecimalStringValue(now);
  }

  /** After the user's folder, the path is the upload time and the extension
      and nothing else: splitting it at '.' gives exactly those two texts, and
      the first reads back as the time. */
  lemma AvatarPathParts(userId: string, now: nat, fileName: string)
    ensures var path := AvatarPath(userId, now, fileName);
      var parts := Split(path[|userId| + 1..], '.');
      && path[..|userId| + 1] == userId + "/"
      && parts == [DecimalString(now), Extension(fileName)]
      && DigitsValue(parts[0]) == now
  {
    AvatarPathFolder(userId, now, fileName);
    AvatarFileNameParts(now, fileName);
  }

  /** The stored file keeps the uploaded file's extension. */
  lemma AvatarPathKeepsExtension(userId: string, now: nat, fileName: string)
    ensures Extension(AvatarPath(userId, now, fileName)) == Extension(fileName)
  {
    ExtensionAfterDot(userId + "/" + DecimalString(now), Extension(fileName));
  }

  /** A name that ends with a dot and a dot-free text has that text as its
      extension. */
  lemma {:induction false} ExtensionAfterDot(head: string, ext: string)
    requires '.' !in ext
    ensures Extension(head + "." + ext) == ext
    decreases |ext|
  {
    var name := head + "." + ext;
    if ext != [] {
      assert name[..|name| - 1] == head + "." + ext[..|ext| - 1];
      ExtensionAfterDot(head, ext[..|ext| - 1]);
      assert ext == ext[..|ext| - 1] + [ext[|ext| - 1]];
    }
  }

  /** `uploadAvatar`; `now` is `Date.now()`, `upload` answers the upload of a
      path (an error or none) and `publicUrl` the public URL of a path. */
  function UploadAvatar(userId: Option<string>, file: Option<File>, now: nat,
                        upload: string -> Option<Error>, publicUrl: string -> string): (r: Result<string>)
    ensures !TruthyText(userId) ==> r == Err(Thrown(MissingUserUploadMessage))
    ensures TruthyText(userId) && file.None? ==> r == Err(Thrown(MissingFileMessage))
    ensures TruthyText(userId) && file.Some? ==>
      var path := AvatarPath(userId.value, now, file.value.name);
      r == if upload(path).Some? then Err(upload(path).value) else Ok(publicUrl(path))
  {
    if !TruthyText(userId) then Err(Thrown(MissingUserUploadMessage))
    else if file.None? then Err(Thrown(MissingFileMessage))
    else
      var path := AvatarPath(userId.value, now, file.value.name);
      var failed := upload(path);
      if failed.Some? then Err(failed.value) else Ok(publicUrl(path))
  }

  // ----------------------------------------------------------- changePassword

  /** `changePassword`; `updateUser` answers the password change. */
  function ChangePassword(newPassword: Option<string>, updateUser: string -> Result<AccountData>): (r: Result<AccountData>)
    ensures newPassword.None? || |newPassword.value| < MinPasswordLength ==> r == Err(Thrown(ShortPasswordMessage))
    ensures newPassword.Some? && |newPassword.value| >= MinPasswordLength ==> r == updateUser(newPassword.value)
  {
    if newPassword.None? || |newPassword.value| < MinPasswordLength then Err(Thrown(ShortPasswordMessage))
    else updateUser(newPassword.value)
  }
}
