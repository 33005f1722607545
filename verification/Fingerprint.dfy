/** Fingerprinted asset URLs: how the command-line tool builds them, how the server recognises
    them, and how they feed the template rewriting. */
module Fingerprint {
  import opened Prelude
  import opened Text
  import Rewrite

  function DirAndFile(url: string): (string, string) {
    match RSplitOnce(url, '/')
    case Some(p) => p
    case None => ("", url)
  }

  /** The last path segment with the hash put before its extension, or after it when it has none
      or nothing but one. */
  function FingerprintFile(file: string, hex: string): string {
    match RSplitOnce(file, '.')
    case Some((stem, ext)) => if stem != "" then stem + "." + hex + "." + ext else file + "." + hex
    case None => file + "." + hex
  }

  function FingerprintUrl(canonical: string, hex: string): string {
    var (dir, file) := DirAndFile(canonical);
    dir + "/" + FingerprintFile(file, hex)
  }

  predicate IsHexRun(s: string) {
    |s| >= 8 && forall i :: 0 <= i < |s| ==> IsAsciiHexDigit(s[i])
  }

  /** The server's test for `Cache-Control: immutable`. */
  predicate IsFingerprintedUrl(url: string) {
    var parts := Split(DirAndFile(url).1, '.');
    |parts| >= 3 && IsHexRun(parts[|parts| - 2])
  }

  predicate IsHash(hex: string) { '.' !in hex && '/' !in hex }

  lemma HexRunIsHash(hex: string)
    requires IsHexRun(hex)
    ensures IsHash(hex)
  {
  }

  // ---- Injectivity ----

  predicate HasExtension(file: string) {
    RSplitOnce(file, '.').Some? && RSplitOnce(file, '.').value.0 != ""
  }

  /** From the fingerprinted file name, the hash and the original name. */
  function Unfingerprint(name: string): Option<(string, string)> {
    match RSplitOnce(name, '.')
    case None => None
    case Some((front, last)) =>
      match RSplitOnce(front, '.')
      case None => Some((front, last))
      case Some((stem, middle)) => if stem != "" then Some((stem + "." + last, middle)) else Some((front, last))
  }

  lemma UnfingerprintInverts(file: string, hex: string)
    requires IsHash(hex)
    ensures Unfingerprint(FingerprintFile(file, hex)) == Some((file, hex))
  {
    assert "." == ['.'];
    if HasExtension(file) {
      var (stem, ext) := RSplitOnce(file, '.').value;
      RSplitOnceIs(stem + "." + hex, ext, '.');
      RSplitOnceIs(stem, hex, '.');
    } else {
      RSplitOnceIs(file, hex, '.');
    }
  }

  lemma FingerprintedFileHasNoSlash(file: string, hex: string)
    requires '/' !in file && IsHash(hex)
    ensures '/' !in FingerprintFile(file, hex)
  {
  }

  lemma FingerprintSplitsAtLastSlash(url: string, hex: string)
    requires IsHash(hex) && '/' in url
    ensures var (dir, file) := DirAndFile(url);
            RSplitOnce(FingerprintUrl(url, hex), '/') == Some((dir, FingerprintFile(file, hex)))
            && url == dir + "/" + file
  {
    var (dir, file) := DirAndFile(url);
    FingerprintedFileHasNoSlash(file, hex);
    RSplitOnceIs(dir, FingerprintFile(file, hex), '/');
    assert "/" == ['/'];
  }

  /** No two assets, and no two versions of one, share a fingerprinted URL: across files with an
      extension, without one, and hidden files alike. */
  lemma FingerprintIsInjective(url: string, hex: string, url': string, hex': string)
    requires StartsWith(url, "/") && StartsWith(url', "/") && IsHash(hex) && IsHash(hex')
    requires FingerprintUrl(url, hex) == FingerprintUrl(url', hex')
    ensures url == url' && hex == hex'
  {
    assert url[..1][0] == '/' && url'[..1][0] == '/';
    FingerprintSplitsAtLastSlash(url, hex);
    FingerprintSplitsAtLastSlash(url', hex');
    UnfingerprintInverts(DirAndFile(url).1, hex);
    UnfingerprintInverts(DirAndFile(url').1, hex');
  }

  /** The hash must be free of slashes too, and the URL must lead with one: a hash that names a
      directory, and a URL without its slash, collide with others. */
  lemma InjectivityNeedsItsConditions(stem: string, part: string, last: string, ext: string, hex: string)
    requires stem != "" && '/' !in stem + part + last + ext && '.' !in last + ext
    ensures FingerprintUrl("/" + (stem + "." + ext), part + "/" + last)
            == FingerprintUrl("/" + stem + "." + part + "/" + last, ext)
    ensures FingerprintUrl("/" + stem, hex) == FingerprintUrl(stem, hex)
  {
    SlashInHashCollides(stem, part, last, ext);
    MissingSlashCollides(stem, hex);
  }

  lemma MissingSlashCollides(file: string, hex: string)
    requires '/' !in file
    ensures FingerprintUrl("/" + file, hex) == FingerprintUrl(file, hex)
  {
    FingerprintUnder("", file, hex);
    assert "" + "/" + file == "/" + file;
  }

  lemma SlashInHashCollides(stem: string, part: string, last: string, ext: string)
    requires stem != "" && '/' !in stem + part + last + ext && '.' !in last + ext
    ensures FingerprintUrl("/" + (stem + "." + ext), part + "/" + last)
            == FingerprintUrl("/" + stem + "." + part + "/" + last, ext)
  {
    FingerprintUnder("", stem + "." + ext, part + "/" + last);
    FingerprintUnder("/" + stem + "." + part, last, ext);
    FilesOfCollision(stem, part, last, ext);
    assert "" + "/" + (stem + "." + ext) == "/" + (stem + "." + ext);
    Regrouped(stem, part, last, ext);
  }

  lemma FilesOfCollision(stem: string, part: string, last: string, ext: string)
    requires stem != "" && '.' !in last + ext
    ensures FingerprintFile(stem + "." + ext, part + "/" + last) == stem + "." + (part + "/" + last) + "." + ext
    ensures FingerprintFile(last, ext) == last + "." + ext
  {
    assert "." == ['.'];
    assert forall c :: c in ext ==> c in last + ext;
    assert forall c :: c in last ==> c in last + ext;
    RSplitOnceIs(stem, ext, '.');
    NoDot(last);
  }

  lemma NoDot(s: string)
    requires '.' !in s
    ensures RSplitOnce(s, '.') == None
  {
  }

  lemma Regrouped(stem: string, part: string, last: string, ext: string)
    ensures "" + "/" + (stem + "." + (part + "/" + last) + "." + ext)
            == "/" + stem + "." + part + "/" + (last + "." + ext)
  {
  }

  lemma FingerprintUnder(dir: string, file: string, hex: string)
    requires '/' !in file
    ensures FingerprintUrl(dir + "/" + file, hex) == dir + "/" + FingerprintFile(file, hex)
  {
    assert "/" == ['/'];
    RSplitOnceIs(dir, file, '/');
  }

  // ---- Recognition ----

  lemma LastPartsOfDotted(stem: string, middle: string, last: string)
    requires '.' !in middle && '.' !in last
    ensures var parts := Split(stem + "." + middle + "." + last, '.');
            |parts| >= 3 && parts[|parts| - 2] == middle
  {
    assert "." == ['.'];
    SplitConcat(stem + "." + middle, last, '.');
    SplitConcat(stem, middle, '.');
    SplitNothing(middle, '.');
    SplitNothing(last, '.');
  }

  /** A hidden file whose name happens to be a hex run, such as ".deadbeef". */
  predicate IsHexDotfile(file: string) {
    RSplitOnce(file, '.').Some? && RSplitOnce(file, '.').value.0 == "" && IsHexRun(RSplitOnce(file, '.').value.1)
  }

  /** What the server takes for a fingerprinted name: something, then a run of at least eight hex
      digits, then an extension, all after dots. */
  lemma RecognisedIffHashed(url: string)
    ensures IsFingerprintedUrl(url)
            <==> exists front, hex, ext :: DirAndFile(url).1 == front + "." + hex + "." + ext && '.' !in ext
                   && |hex| >= 8 && forall i :: 0 <= i < |hex| ==> IsAsciiHexDigit(hex[i])
  {
    var file := DirAndFile(url).1;
    var parts := Split(file, '.');
    if IsFingerprintedUrl(url) {
      var n := |parts| - 2;
      JoinOfSplit(file, '.');
      JoinLastTwo(parts, ".");
      var front := Join(parts[..n], ".");
      assert file == front + "." + parts[n] + "." + parts[n + 1];
    }
    if front, hex, ext :| file == front + "." + hex + "." + ext && '.' !in ext
                          && |hex| >= 8 && forall i :: 0 <= i < |hex| ==> IsAsciiHexDigit(hex[i]) {
      HashedParts(file, front, hex, ext);
    }
  }

  lemma HashedParts(file: string, front: string, hex: string, ext: string)
    requires file == front + "." + hex + "." + ext && '.' !in ext && '.' !in hex
    ensures var parts := Split(file, '.'); |parts| >= 3 && parts[|parts| - 2] == hex
  {
    assert file == front + ['.'] + (hex + ['.'] + ext);
    SplitConcat(front, hex + ['.'] + ext, '.');
    SplitHead(hex, ext, '.');
    SplitNothing(ext, '.');
  }

  lemma {:induction false} JoinLastTwo(parts: seq<string>, sep: string)
    requires |parts| >= 3
    ensures var n := |parts| - 2;
            Join(parts, sep) == Join(parts[..n], sep) + sep + parts[n] + sep + parts[n + 1]
  {
    var n, rest := |parts| - 2, parts[1..];
    if |parts| == 3 {
      assert rest[1..] == [parts[2]] && parts[..1] == [parts[0]];
      assert Join(rest, sep) == parts[1] + sep + parts[2];
      assert parts[0] + sep + (parts[1] + sep + parts[2]) == parts[0] + sep + parts[1] + sep + parts[2];
    } else {
      JoinLastTwo(rest, sep);
      assert rest[..n - 1] == parts[..n][1..] && rest[n - 1] == parts[n] && rest[n] == parts[n + 1];
      var middle := Join(rest[..n - 1], sep);
      assert parts[0] + sep + (middle + sep + parts[n] + sep + parts[n + 1])
             == parts[0] + sep + middle + sep + parts[n] + sep + parts[n + 1];
    }
  }

  /** The server recognises a fingerprinted URL iff the file has an extension (or is a hidden
      file that looks like a hash itself). */
  lemma RecognisedIffExtension(url: string, hex: string)
    requires StartsWith(url, "/") && IsHexRun(hex)
    ensures IsFingerprintedUrl(FingerprintUrl(url, hex))
            <==> HasExtension(DirAndFile(url).1) || IsHexDotfile(DirAndFile(url).1)
  {
    assert url[..1][0] == '/';
    HexRunIsHash(hex);
    FingerprintSplitsAtLastSlash(url, hex);
    var file := DirAndFile(url).1;
    var name := FingerprintFile(file, hex);
    assert "." == ['.'];
    match RSplitOnce(file, '.')
    case Some((stem, ext)) =>
      if stem != "" {
        LastPartsOfDotted(stem, hex, ext);
      } else {
        assert name == "" + "." + ext + "." + hex;
        SplitConcat("" + "." + ext, hex, '.');
        SplitConcat("", ext, '.');
        SplitNothing(ext, '.');
        SplitNothing(hex, '.');
      }
    case None =>
      SplitConcat(file, hex, '.');
      SplitNothing(file, '.');
      SplitNothing(hex, '.');
  }

  // ---- Feeding the rewriting ----

  /** The rewrite map of a production push: every asset URL to its fingerprinted form. */
  ghost predicate IsFingerprintMap(m: map<string, string>) {
    forall k :: k in m ==>
      StartsWith(k, "/") && '"' !in k && exists hex :: IsHexRun(hex) && m[k] == FingerprintUrl(k, hex)
  }

  lemma FingerprintChangesUrl(url: string, hex: string)
    requires StartsWith(url, "/") && '"' !in url && IsHexRun(hex)
    ensures FingerprintUrl(url, hex) != url && '"' !in FingerprintUrl(url, hex)
  {
    assert url[..1][0] == '/';
    HexRunIsHash(hex);
    FingerprintSplitsAtLastSlash(url, hex);
    var (dir, file) := DirAndFile(url);
    assert |FingerprintFile(file, hex)| == |file| + 1 + |hex|;
    assert '"' !in hex;
  }

  lemma FingerprintLeadsWithSlash(url: string, hex: string)
    requires StartsWith(url, "/")
    ensures StartsWith(FingerprintUrl(url, hex), "/")
  {
    assert url[..1][0] == '/';
    var (dir, file) := DirAndFile(url);
    assert url == dir + ['/'] + file;
    assert dir == "" || dir[0] == '/';
  }

  /** For such maps, template rewriting is independent of the map's iteration order iff no
      fingerprinted URL is itself a key. */
  lemma FingerprintMapsAreOrderIndependentIff(m: map<string, string>)
    requires IsFingerprintMap(m)
    ensures Rewrite.QuoteFree(m) && (Rewrite.OrderIrrelevant(m) <==> Rewrite.NoChains(m))
  {
    forall k | k in m ensures '"' !in m[k] && m[k] != k {
      var hex :| IsHexRun(hex) && m[k] == FingerprintUrl(k, hex);
      FingerprintChangesUrl(k, hex);
    }
    Rewrite.OrderIrrelevantIffNoChains(m);
  }
}
