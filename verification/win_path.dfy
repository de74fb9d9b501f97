/** The `os.path` functions the scripts call, as they behave on Windows
    (`ntpath`), where every one of these scripts runs: `\` and `/` are both
    separators and a leading `X:` is a drive. UNC shares are not modelled. */
module WinPath {
  import opened Text

  predicate IsSep(c: char) {
    c == '\\' || c == '/'
  }

  predicate NoSep(s: string) {
    forall i :: 0 <= i < |s| ==> !IsSep(s[i])
  }

  /** A file name that `join` appends as it is: no separator, no colon. */
  predicate PlainName(s: string) {
    NoSep(s) && ':' !in s
  }

  predicate HasDrive(p: string) {
    |p| >= 2 && p[1] == ':'
  }

  /** First half of `splitdrive`. */
  function DrivePart(p: string): string {
    if HasDrive(p) then p[..2] else ""
  }

  /** Second half of `splitdrive`. */
  function PathPart(p: string): (r: string)
    ensures DrivePart(p) + r == p
  {
    if HasDrive(p) then p[2..] else p
  }

  /** Index just after the last separator of `p` (0 when there is none). */
  function LastSepEnd(p: string): (i: nat)
    ensures i <= |p|
    ensures i == 0 || IsSep(p[i - 1])
    ensures NoSep(p[i..])
    decreases |p|
  {
    if |p| == 0 then 0
    else if IsSep(p[|p| - 1]) then |p|
    else
      var i := LastSepEnd(p[..|p| - 1]);
      assert p[i..] == p[..|p| - 1][i..] + [p[|p| - 1]];
      i
  }

  /** The three postconditions of `LastSepEnd` pin the index down. */
  lemma LastSepEndUnique(p: string, j: nat)
    requires j <= |p|
    requires j == 0 || IsSep(p[j - 1])
    requires NoSep(p[j..])
    ensures LastSepEnd(p) == j
  {
  }

  /** `s.rstrip("\\/")` */
  function RStripSeps(s: string): (r: string)
    ensures r <= s
    ensures |r| == 0 || !IsSep(r[|r| - 1])
    ensures forall k :: |r| <= k < |s| ==> IsSep(s[k])
    decreases |s|
  {
    if |s| == 0 then s
    else if IsSep(s[|s| - 1]) then RStripSeps(s[..|s| - 1])
    else s
  }

  /** Folder half of `ntpath.split` on a path without its drive: the text
      before the last component, trailing separators removed unless it is a
      root. */
  function FolderOf(rest: string): string {
    var head := rest[..LastSepEnd(rest)];
    var stripped := RStripSeps(head);
    if |stripped| > 0 then stripped else head
  }

  /** `os.path.basename`: the second half of `ntpath.split`, everything
      after the last separator of the path without its drive. */
  function Basename(p: string): (r: string)
    ensures NoSep(r)
  {
    var rest := PathPart(p);
    rest[LastSepEnd(rest)..]
  }

  /** `os.path.dirname`: the first half of `ntpath.split`. */
  function Dirname(p: string): string {
    DrivePart(p) + FolderOf(PathPart(p))
  }

  /** `os.path.basename(p[:-4])`: the file name without a four-character
      extension such as `.pix`. */
  function Stem(p: string): (r: string)
    ensures NoSep(r)
  {
    Basename(DropLast(p, 4))
  }

  /** A non-empty path part gets a separator before the next component. */
  function WithTrailingSep(ap: string): (r: string)
    ensures |r| == 0 || IsSep(r[|r| - 1])
    ensures |ap| == 0 ==> r == ""
    ensures |ap| > 0 ==> |r| > 0 && r[0] == ap[0]
    ensures |r| >= 2 ==> (|ap| >= 2 && r[1] == ap[1]) || (|ap| == 1 && r[1] == '\\')
  {
    if |ap| > 0 && !IsSep(ap[|ap| - 1]) then ap + "\\" else ap
  }

  /** `ntpath.join(a, b)` for two components. */
  function Join(a: string, b: string): string {
    var ad := DrivePart(a);
    var ap := PathPart(a);
    var bd := DrivePart(b);
    var bp := PathPart(b);
    if |bp| > 0 && IsSep(bp[0]) then
      // b is rooted: it replaces the path of a, keeping a's drive if b has none
      (if |bd| > 0 || |ad| == 0 then bd else ad) + bp
    else if |bd| > 0 && bd != ad && Lower(bd) != Lower(ad) then
      // b names another drive: a is discarded
      bd + bp
    else
      (if |bd| > 0 then bd else ad) + WithTrailingSep(ap) + bp
  }

  lemma LastSepEndAppend(x: string, name: string)
    requires NoSep(name)
    ensures LastSepEnd(x + name) == LastSepEnd(x)
  {
    var j := LastSepEnd(x);
    var p := x + name;
    assert p[j..] == x[j..] + name;
    assert j == 0 || p[j - 1] == x[j - 1];
    LastSepEndUnique(p, j);
  }

  /** A plain name is appended to the folder after a separator. */
  lemma JoinPlainName(dir: string, name: string)
    requires PlainName(name)
    ensures Join(dir, name) == DrivePart(dir) + WithTrailingSep(PathPart(dir)) + name
  {
    assert !HasDrive(name);
  }

  lemma PathPartOfConcat(d: string, rest: string)
    requires (d == "" && !HasDrive(rest)) || (|d| == 2 && d[1] == ':')
    ensures PathPart(d + rest) == rest
    ensures DrivePart(d + rest) == d
  {
    if |d| == 2 {
      assert (d + rest)[2..] == rest;
      assert (d + rest)[..2] == d;
    } else {
      assert d + rest == rest;
    }
  }

  /** A folder without a drive, a separator, then a plain name: no drive. */
  lemma NoDriveAfterJoin(dir: string, name: string)
    requires PlainName(name) && !HasDrive(dir)
    ensures !HasDrive(WithTrailingSep(dir) + name)
  {
    var mid := WithTrailingSep(dir);
    var j := mid + name;
    if |j| >= 2 {
      if |mid| >= 2 {
        assert j[1] == mid[1];
      } else if |mid| == 1 {
        assert j[1] == name[0];
      } else {
        assert j[1] == name[1];
      }
    }
  }

  /** The path part of a folder joined with a plain name. */
  lemma DriveOfJoin(dir: string, name: string)
    requires PlainName(name)
    ensures PathPart(Join(dir, name)) == WithTrailingSep(PathPart(dir)) + name
  {
    JoinPlainName(dir, name);
    var ad := DrivePart(dir);
    var mid := WithTrailingSep(PathPart(dir));
    if |ad| == 0 {
      NoDriveAfterJoin(dir, name);
    }
    assert ad + mid + name == ad + (mid + name);
    PathPartOfConcat(ad, mid + name);
  }

  /** Joining a plain file name onto any folder and taking the basename
      gives the file name back. */
  lemma BasenameOfJoin(dir: string, name: string)
    requires PlainName(name)
    ensures Basename(Join(dir, name)) == name
  {
    DriveOfJoin(dir, name);
    var mid := WithTrailingSep(PathPart(dir));
    var rest := mid + name;
    LastSepEndAppend(mid, name);
    LastSepEndUnique(mid, |mid|);
    assert rest[|mid|..] == name;
  }

  /** The folder part returned by `dirname` splits back into the drive and
      the folder path it was built from. */
  lemma DirnameParts(p: string)
    ensures var rest := PathPart(p);
            var head := rest[..LastSepEnd(rest)];
            var h := Dirname(p)[|DrivePart(p)|..];
            && Dirname(p) == DrivePart(p) + h
            && DrivePart(Dirname(p)) == DrivePart(p)
            && PathPart(Dirname(p)) == h
            && ((|RStripSeps(head)| > 0 && h == RStripSeps(head)) || (h == head && RStripSeps(head) == ""))
  {
    var d := DrivePart(p);
    var rest := PathPart(p);
    var h := FolderOf(rest);
    FolderIsPrefix(rest);
    assert Dirname(p) == d + h;
    assert Dirname(p)[|d|..] == h;
    if d == "" {
      assert rest == p;
      if |h| >= 2 {
        assert h[1] == p[1];
      }
    }
    PathPartOfConcat(d, h);
  }

  /** The folder part of a path without drive is a prefix of it: the text
      before its last component, with trailing separators stripped unless
      nothing would remain. */
  lemma FolderIsPrefix(rest: string)
    ensures var head := rest[..LastSepEnd(rest)];
            var h := FolderOf(rest);
            && h <= rest
            && ((|RStripSeps(head)| > 0 && h == RStripSeps(head)) || (h == head && RStripSeps(head) == ""))
  {
    var head := rest[..LastSepEnd(rest)];
    assert head <= rest;
  }

  lemma RStripAfterSep(h: string)
    requires |h| > 0 && !IsSep(h[|h| - 1])
    ensures RStripSeps(h + "\\") == h
    ensures RStripSeps(h) == h
  {
    assert (h + "\\")[..|h|] == h;
  }

  lemma FolderOfJoined(h: string, name: string)
    requires NoSep(name)
    requires h == "" || !IsSep(h[|h| - 1]) || RStripSeps(h) == ""
    ensures FolderOf(WithTrailingSep(h) + name) == h
  {
    var w := WithTrailingSep(h);
    LastSepEndAppend(w, name);
    if |w| > 0 {
      LastSepEndUnique(w, |w|);
    }
    assert (w + name)[..LastSepEnd(w + name)] == w;
    if |h| > 0 && !IsSep(h[|h| - 1]) {
      RStripAfterSep(h);
    }
  }

  lemma DirnameFromParts(j: string, d: string, rest: string)
    requires j == d + rest
    requires PathPart(j) == rest
    ensures Dirname(j) == d + FolderOf(rest)
  {
    assert DrivePart(j) + rest == d + rest;
    assert |DrivePart(j)| == |d|;
    assert DrivePart(j) == (d + rest)[..|d|] == d;
  }

  lemma JoinFolder(d: string, h: string, name: string)
    requires PlainName(name)
    requires (d == "" && !HasDrive(h)) || (|d| == 2 && d[1] == ':')
    ensures Join(d + h, name) == d + (WithTrailingSep(h) + name)
  {
    PathPartOfConcat(d, h);
    JoinPlainName(d + h, name);
    ConcatAssoc(d, WithTrailingSep(h), name);
  }

  lemma ConcatAssoc(a: string, b: string, c: string)
    ensures a + b + c == a + (b + c)
  {
  }

  /** Splitting `folder\\name` returns the folder, when the folder is
      already in the form `dirname` produces. */
  lemma DirnameOfFolderJoin(d: string, h: string, name: string)
    requires PlainName(name)
    requires (d == "" && !HasDrive(h)) || (|d| == 2 && d[1] == ':')
    requires h == "" || !IsSep(h[|h| - 1]) || RStripSeps(h) == ""
    ensures Dirname(Join(d + h, name)) == d + h
  {
    var w := WithTrailingSep(h);
    var j := Join(d + h, name);
    JoinFolder(d, h, name);
    PathPartOfConcat(d, h);
    DriveOfJoin(d + h, name);
    assert PathPart(j) == w + name;
    DirnameFromParts(j, d, w + name);
    FolderOfJoined(h, name);
  }

  /** A file named by joining a plain name onto the folder of `p` sits in
      that same folder. */
  lemma DirnameOfJoin(p: string, name: string)
    requires PlainName(name)
    ensures Dirname(Join(Dirname(p), name)) == Dirname(p)
  {
    DirnameParts(p);
    var d := DrivePart(p);
    var h := Dirname(p)[|d|..];
    if d == "" {
      assert Dirname(p) == h;
    }
    DirnameOfFolderJoin(d, h, name);
  }
  /** A plain name joined onto a folder written without a trailing
      separator lies in that folder. */
  lemma DirnameOfJoinFolder(dir: string, name: string)
    requires PlainName(name)
    requires |dir| == 0 || !IsSep(dir[|dir| - 1])
    ensures Dirname(Join(dir, name)) == dir
  {
    var d := DrivePart(dir);
    var h := PathPart(dir);
    assert d + h == dir;
    if |h| > 0 {
      assert h[|h| - 1] == dir[|dir| - 1];
    }
    if !HasDrive(dir) {
      assert h == dir;
    }
    DirnameOfFolderJoin(d, h, name);
  }

  /** `join` ends with the plain name it appends. */
  lemma JoinEndsWithName(dir: string, name: string)
    requires PlainName(name) && |name| > 0
    ensures |Join(dir, name)| > 0 && Join(dir, name)[|Join(dir, name)| - 1] == name[|name| - 1]
  {
    JoinPlainName(dir, name);
  }

  /** Two plain names side by side make a plain name. */
  lemma PlainConcat(a: string, b: string)
    requires PlainName(a) && PlainName(b)
    ensures PlainName(a + b)
  {
    forall i | 0 <= i < |a + b|
      ensures !IsSep((a + b)[i])
    {
      if i < |a| {
        assert (a + b)[i] == a[i];
      } else {
        assert (a + b)[i] == b[i - |a|];
      }
    }
  }

  /** A plain name plus a plain four-character extension, joined onto a
      folder: `basename(p[:-4])` gives the name back. */
  lemma StemOfJoin(dir: string, name: string, ext: string)
    requires PlainName(name) && PlainName(ext) && |ext| == 4
    ensures Stem(Join(dir, name + ext)) == name
  {
    PlainConcat(name, ext);
    var j := Join(dir, name + ext);
    var j0 := Join(dir, name);
    AppendToJoin(dir, name, ext);
    assert j == j0 + ext;
    assert DropLast(j, 4) == j0;
    BasenameOfJoin(dir, name);
  }

  lemma AppendToJoin(dir: string, name: string, ext: string)
    requires PlainName(name) && PlainName(name + ext)
    ensures Join(dir, name + ext) == Join(dir, name) + ext
  {
    var lead := DrivePart(dir) + WithTrailingSep(PathPart(dir));
    JoinPlainName(dir, name + ext);
    JoinPlainName(dir, name);
    ConcatAssoc(lead, name, ext);
  }
}
