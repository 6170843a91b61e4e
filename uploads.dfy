/**
 * The file-name and size tests that guard an upload: the resource-image
 * upload of the resources controller and the profile-picture upload of the
 * auth controller both take the text after the last dot, lower-case it and
 * look it up in a set of allowed extensions, and both refuse more than 5 MB.
 */
module Uploads {
  import opened Common
  import opened Strings

  /** 5 MB, the limit of both uploads. */
  const MAX_UPLOAD_SIZE := 5 * 1024 * 1024

  /** `filename.rsplit('.', 1)[1].lower()`, defined only when the name has a dot. */
  function Extension(filename: string): (e: Option<string>)
    ensures e.None? <==> '.' !in filename
    ensures e.Some? ==> '.' !in e.value
  {
    if '.' in filename then
      var raw := AfterLast(filename, '.');
      assert forall i :: 0 <= i < |raw| ==> Lower(raw)[i] != '.';
      Some(Lower(raw))
    else None
  }

  /** `'.' in filename and filename.rsplit('.', 1)[1].lower() in allowed`. */
  predicate HasAllowedExtension(filename: string, allowed: set<string>) {
    var e := Extension(filename);
    e.Some? && e.value in allowed
  }

  /** The extension is the lower-cased text behind the last dot, whatever precedes it. */
  lemma ExtensionOfName(base: string, ext: string)
    requires '.' !in ext
    ensures Extension(base + "." + ext) == Some(Lower(ext))
  {
    var s := base + "." + ext;
    assert s[|base|] == '.';
    var r := AfterLast(s, '.');
    assert r == s[|s| - |ext|..] == ext;
  }

  /** An allowed name is a base, a dot and an allowed extension in any letter case; no other name is allowed. */
  lemma AllowedExtensionIff(base: string, ext: string, allowed: set<string>)
    requires '.' !in ext
    ensures HasAllowedExtension(base + "." + ext, allowed) <==> Lower(ext) in allowed
  {
    ExtensionOfName(base, ext);
  }

  /** A name without a dot is refused whatever the allowed set holds. */
  lemma NoDotRefused(filename: string, allowed: set<string>)
    requires '.' !in filename
    ensures !HasAllowedExtension(filename, allowed)
  {
  }

  /** A file passes the size test when it holds at most 5 MB. */
  predicate SizeAllowed(size: nat) {
    size <= MAX_UPLOAD_SIZE
  }
}
