/**
 * The user record of the credential store: its fields and schema defaults, schema
 * validation, the save hook that re-hashes the password only when it was modified, and
 * password comparison.
 *
 * bcrypt is modelled by a transparent stand-in that keeps what comparison depends on. The
 * digest starts with the algorithm and cost prefix and embeds the 22-character salt, as a
 * bcrypt digest does, and then holds the 72-byte key that bcrypt's key schedule reads from
 * the password, where a real digest holds the cipher's output. Comparison re-hashes the
 * candidate with the salt read back from the digest, so two passwords are interchangeable
 * exactly when their keys agree: bytes past the 72nd never matter.
 */
module UserModel {
  import opened Wrappers
  import JsString

  type UserId = nat

  /** Algorithm and cost marker at the head of a digest (`bcrypt.genSalt(10)`). */
  const BcryptPrefix: string := "$2a$10$"

  const SaltLength: nat := 22

  type Salt = s: string | |s| == SaltLength witness "......................"

  /** The key bytes bcrypt's key schedule reads: eighteen 32-bit subkeys. */
  const KeyLength: nat := 72

  /** The length of a digest of the stand-in, whatever the password. */
  const DigestLength: nat := |BcryptPrefix| + SaltLength + KeyLength

  /**
   * The key bcrypt derives from a password: its UTF-8 bytes, then a terminating zero byte,
   * read cyclically until the 72 key bytes are filled.
   */
  function Key(plain: string): (key: seq<JsString.Byte>)
    ensures |key| == KeyLength
  {
    var bytes := JsString.Utf8(plain) + [0];
    seq(KeyLength, i requires 0 <= i < KeyLength => bytes[i % |bytes|])
  }

  /** Only the first 72 UTF-8 bytes of a long password reach the key; the rest is ignored. */
  lemma LongPasswordTruncated(plain: string, extra: string)
    requires |JsString.Utf8(plain)| >= KeyLength
    ensures Key(plain + extra) == Key(plain)
  {
    JsString.Utf8Append(plain, extra);
    var b, b' := JsString.Utf8(plain) + [0], JsString.Utf8(plain + extra) + [0];
    var n, n' := |b|, |b'|;
    assert KeyLength < n <= n';
    forall i | 0 <= i < KeyLength ensures b'[i % n'] == b[i % n] {
      SmallRemainder(i, n);
      SmallRemainder(i, n');
    }
  }

  lemma SmallRemainder(i: nat, n: nat)
    requires i < n
    ensures i % n == i
  {
  }

  /** The key written as characters, one per byte. */
  function KeyText(key: seq<JsString.Byte>): (text: string)
    ensures |text| == |key|
    ensures forall i :: 0 <= i < |key| ==> text[i] as int == key[i]
  {
    seq(|key|, i requires 0 <= i < |key| => key[i] as char)
  }

  /** A string has the shape of a digest: the prefix, then a fixed length. */
  predicate IsDigest(d: string)
  {
    |d| == DigestLength && d[..|BcryptPrefix|] == BcryptPrefix
  }

  /** `bcrypt.hash(plain, salt)`. */
  function Hash(plain: string, salt: Salt): (digest: string)
    ensures IsDigest(digest)
    ensures digest[|BcryptPrefix|..|BcryptPrefix| + SaltLength] == salt
  {
    BcryptPrefix + salt + KeyText(Key(plain))
  }

  /** `bcrypt.compare(candidate, digest)`: re-hash the candidate with the digest's own salt. */
  function Compare(candidate: string, digest: string): bool
  {
    && |digest| >= |BcryptPrefix| + SaltLength
    && digest[..|BcryptPrefix|] == BcryptPrefix
    && Hash(candidate, digest[|BcryptPrefix|..|BcryptPrefix| + SaltLength]) == digest
  }

  /** A digest made from a password, with any salt, accepts exactly the candidates with the same key. */
  lemma CompareHash(plain: string, candidate: string, salt: Salt)
    ensures Compare(candidate, Hash(plain, salt)) <==> Key(candidate) == Key(plain)
  {
    var d := Hash(plain, salt);
    assert d[..|BcryptPrefix|] == BcryptPrefix;
    if Compare(candidate, d) {
      var n := |BcryptPrefix| + SaltLength;
      assert Hash(candidate, salt) == d;
      assert KeyText(Key(candidate)) == Hash(candidate, salt)[n..];
      assert KeyText(Key(plain)) == d[n..];
      forall i | 0 <= i < KeyLength ensures Key(candidate)[i] == Key(plain)[i] {
        assert KeyText(Key(candidate))[i] == KeyText(Key(plain))[i];
      }
    }
  }

  /** A password of 72 or more UTF-8 bytes is accepted with anything appended to it. */
  lemma CompareIgnoresTail(plain: string, extra: string, salt: Salt)
    requires |JsString.Utf8(plain)| >= KeyLength
    ensures Compare(plain + extra, Hash(plain, salt))
  {
    LongPasswordTruncated(plain, extra);
    CompareHash(plain, plain + extra, salt);
  }

  datatype User = User(
    fullName: string,
    email: string,
    password: string,
    bio: string,
    profilePic: string,
    location: string,
    isOnboarded: bool,
    isVerified: bool,
    lastLogin: int,
    friends: seq<UserId>,
    friendRequests: seq<UserId>,
    posts: seq<nat>,
    comments: seq<nat>,
    resetPasswordToken: Option<string>,
    resetPasswordExpires: Option<int>,
    verificationToken: Option<string>,
    verificationTokenExpires: Option<int>)

  /** Every field the caller did not supply holds its schema default. */
  predicate HasSchemaDefaults(u: User)
  {
    && u.bio == "" && u.location == ""
    && !u.isOnboarded && !u.isVerified
    && u.friends == [] && u.friendRequests == [] && u.posts == [] && u.comments == []
    && u.resetPasswordToken.None? && u.resetPasswordExpires.None?
    && u.verificationToken.None? && u.verificationTokenExpires.None?
  }

  /** `new User({fullName, email, password, profilePic})`; `lastLogin` defaults to the current time. */
  function NewDocument(fullName: string, email: string, password: string, profilePic: string, now: int): (doc: User)
    ensures HasSchemaDefaults(doc)
    ensures doc.fullName == fullName && doc.email == email && doc.password == password
    ensures doc.profilePic == profilePic && doc.lastLogin == now
  {
    User(fullName, email, password, "", profilePic, "", false, false, now,
         [], [], [], [], None, None, None, None)
  }

  /**
   * Schema validation: `fullName`, `email` and `password` are required (a required string
   * must be non-empty) and `password` has `minlength: 6`, counted in UTF-16 code units.
   * Validation runs before the save hook, so it sees the plaintext.
   */
  predicate SchemaValid(u: User)
  {
    u.fullName != "" && u.email != "" && u.password != "" && JsString.Utf16Length(u.password) >= 6
  }

  /**
   * The `pre('save')` hook: an unmodified password is left alone; a modified one is replaced
   * by its digest under a freshly generated salt.
   */
  function PreSave(u: User, passwordModified: bool, salt: Salt): (saved: User)
    ensures !passwordModified ==> saved == u
    ensures passwordModified ==> saved == u.(password := saved.password)
    ensures passwordModified ==> IsDigest(saved.password) && Compare(u.password, saved.password)
    // a password not shaped like a digest is never stored in clear
    ensures passwordModified && !IsDigest(u.password) ==> saved.password != u.password
  {
    CompareHash(u.password, u.password, salt);
    if passwordModified then u.(password := Hash(u.password, salt)) else u
  }

  /**
   * `User.create(...)`: build the document, validate it, and save it; the password of a
   * new document counts as modified. `None` is the validation error.
   */
  function Create(fullName: string, email: string, password: string, profilePic: string, salt: Salt, now: int): (r: Option<User>)
    ensures r.None? <==> !SchemaValid(NewDocument(fullName, email, password, profilePic, now))
    ensures r.Some? ==> && HasSchemaDefaults(r.value)
                        && r.value.fullName == fullName && r.value.email == email
                        && r.value.profilePic == profilePic && r.value.lastLogin == now
                        && IsDigest(r.value.password) && Compare(password, r.value.password)
                        && (!IsDigest(password) ==> r.value.password != password)
  {
    var doc := NewDocument(fullName, email, password, profilePic, now);
    if SchemaValid(doc) then Some(PreSave(doc, true, salt)) else None
  }

  /** `user.comparePassword(candidate)`. */
  function ComparePassword(u: User, candidate: string): bool
  {
    Compare(candidate, u.password)
  }

  /**
   * After a save that hashed password `p`, `comparePassword` accepts `p`, and accepts another
   * candidate exactly when its key is that of `p`.
   */
  lemma ComparePasswordAfterSave(u: User, salt: Salt, candidate: string)
    ensures ComparePassword(PreSave(u, true, salt), u.password)
    ensures ComparePassword(PreSave(u, true, salt), candidate) <==> Key(candidate) == Key(u.password)
  {
    CompareHash(u.password, u.password, salt);
    CompareHash(u.password, candidate, salt);
  }

  /** Saving again without touching the password neither re-hashes nor invalidates it. */
  lemma SaveWithoutModificationKeepsLogin(u: User, salt: Salt, salt2: Salt, candidate: string)
    ensures PreSave(PreSave(u, true, salt), false, salt2).password == PreSave(u, true, salt).password
    ensures ComparePassword(PreSave(PreSave(u, true, salt), false, salt2), u.password)
    ensures ComparePassword(PreSave(PreSave(u, true, salt), false, salt2), candidate) <==> Key(candidate) == Key(u.password)
  {
    ComparePasswordAfterSave(u, salt, candidate);
  }
}
