/**
 * A folder entry of the file open/save dialog's virtual-file-system
 * provider: its name, path and flags, its list of children, its equality
 * (provider, connection and path) and the hash code that goes with it,
 * and the `create` factory that builds an entry from a file object.
 *
 * The file object, its content's modification time and the clock are
 * inputs here (`FileObjectView` and `now`); `Util.getName` and the
 * provider name constant `VFSFileProvider.NAME` are not part of this model
 * and are passed in. The provider string itself is fixed per object, as
 * the comment in `equals` requires.
 */
module FileOpenSave {
  import opened JavaLang

  /** `getType` of every directory. */
  const Directory: string := "folder"

  const TwoTo32: int := 0x1_0000_0000

  /** Java's `int` wrap-around: the 32-bit value congruent to `x`. */
  function Wrap32(x: int): (r: int)
    ensures InInt32(r)
    ensures (x - r) % TwoTo32 == 0
    ensures InInt32(x) ==> r == x
  {
    var m := x % TwoTo32;
    if m > MaxInt then m - TwoTo32 else m
  }

  /** Values congruent modulo 2^32 wrap to the same `int`. */
  lemma WrapCongruent(a: int, b: int, k: int)
    requires a == b + k * TwoTo32
    ensures Wrap32(a) == Wrap32(b)
  {
    assert a % TwoTo32 == b % TwoTo32;
  }

  /** Wrapping between the steps of a multiply-add gives the same `int` as wrapping once at the end. */
  lemma WrapStep(x: int, c: int)
    ensures Wrap32(31 * Wrap32(x) + c) == Wrap32(31 * x + c)
  {
    var w := Wrap32(x);
    var k := (x - w) / TwoTo32;
    assert x - w == k * TwoTo32;
    WrapCongruent(31 * x + c, 31 * w + c, 31 * k);
  }

  /** `String.hashCode`: `h = 31 * h + c` over the characters, in `int` arithmetic. */
  function StringHash(s: string): (h: int)
    ensures InInt32(h)
  {
    if s == [] then 0 else Wrap32(31 * StringHash(s[..|s| - 1]) + s[|s| - 1] as int)
  }

  /** The hash polynomial without wrap-around: sum of `s[i] * 31^(|s|-1-i)`. */
  function HashPolynomial(s: string): (p: int)
    ensures (forall i :: 0 <= i < |s| ==> s[i] as int >= 0) ==> p >= 0
  {
    if s == [] then 0 else 31 * HashPolynomial(s[..|s| - 1]) + s[|s| - 1] as int
  }

  /** The step-by-step wrapped hash is the polynomial reduced to 32 bits once. */
  lemma {:induction false} StringHashIsWrappedPolynomial(s: string)
    ensures StringHash(s) == Wrap32(HashPolynomial(s))
    decreases |s|
  {
    if s != [] {
      var front := s[..|s| - 1];
      StringHashIsWrappedPolynomial(front);
      WrapStep(HashPolynomial(front), s[|s| - 1] as int);
    }
  }

  /** `Objects.hashCode` of a string that may be null: 0 for null. */
  function NullableHash(s: Option<string>): (h: int)
    ensures InInt32(h)
    ensures s.None? ==> h == 0
  {
    if s.None? then 0 else StringHash(s.value)
  }

  /** `Objects.hash(a, b, c)`: start at 1, then `h = 31 * h + hash(v)` for each value, in `int` arithmetic. */
  function Hash3(a: string, b: Option<string>, c: Option<string>): (h: int)
    ensures InInt32(h)
  {
    Wrap32(31 * Wrap32(31 * Wrap32(31 * 1 + StringHash(a)) + NullableHash(b)) + NullableHash(c))
  }

  /** What `create` reads of the file object. */
  datatype FileObjectView = FileObjectView(
    nameText: string,              // getName().toString()
    baseName: string,              // getName().getBaseName()
    uri: string,                   // getName().getURI()
    lastModified: Option<int>)     // getContent().getLastModifiedTime(), or None when it throws

  predicate EndsWithSlash(s: string) {
    |s| > 0 && s[|s| - 1] == '/'
  }

  /**
   * The name `create` gives a folder: for a name text that ends in "/", the
   * name `Util.getName` derives from the text without that slash; otherwise
   * the file object's base name.
   */
  function FolderName(file: FileObjectView, getName: string -> string): (r: string)
    ensures EndsWithSlash(file.nameText) ==> r == getName(file.nameText[..|file.nameText| - 1])
    ensures !EndsWithSlash(file.nameText) ==> r == file.baseName
  {
    if EndsWithSlash(file.nameText) then getName(file.nameText[..|file.nameText| - 1]) else file.baseName
  }

  /** A trailing slash never reaches `Util.getName`: a folder is named the same with or without it. */
  lemma TrailingSlashIgnored(text: string, baseName: string, uri: string, t: Option<int>, getName: string -> string)
    requires !EndsWithSlash(text) && baseName == getName(text)
    ensures FolderName(FileObjectView(text + "/", baseName, uri, t), getName) ==
            FolderName(FileObjectView(text, baseName, uri, t), getName)
  {
    assert (text + "/")[..|text + "/"| - 1] == text;
  }

  /** A Java reference handed to `equals`: null, a directory, or an object of another class. */
  datatype Obj<F> = Null | Dir(d: VfsDirectory<F>) | Other

  class VfsDirectory<F> {
    const provider: string
    var name: Option<string>
    var path: Option<string>
    var parent: Option<string>
    var connection: Option<string>
    var root: Option<string>
    var domain: Option<string>
    var canEdit: bool
    var date: Option<int>
    var hasChildren: bool
    var canAddChildren: bool
    var children: seq<F>

    /** A directory with no children, null strings and no flags set. */
    constructor (provider: string)
      ensures this.provider == provider && children == []
      ensures name.None? && path.None? && parent.None? && connection.None? && root.None? && domain.None? && date.None?
      ensures !canEdit && !hasChildren && !canAddChildren
    {
      this.provider := provider;
      name := None;
      path := None;
      parent := None;
      connection := None;
      root := None;
      domain := None;
      canEdit := false;
      date := None;
      hasChildren := false;
      canAddChildren := false;
      children := [];
    }

    /** `getType`: every directory is a "folder". */
    function GetType(): (t: string)
      ensures t == Directory
    {
      Directory
    }

    /** `addChild`: the file goes at the end; the earlier children stay as they were. */
    method AddChild(file: F)
      modifies this`children
      ensures children == old(children) + [file]
      ensures children[..|old(children)|] == old(children) && children[|children| - 1] == file
    {
      children := children + [file];
    }

    /** `hashCode`: `Objects.hash(provider, connection, path)`. */
    function HashCode(): (h: int)
      reads this
      ensures InInt32(h)
    {
      Hash3(provider, connection, path)
    }

    /**
     * `equals`: true for the object itself; false for null and for objects
     * of other classes; for another directory, true exactly when provider,
     * connection and path are equal (a null string equal only to null). Equal
     * directories have equal hash codes.
     */
    function Equals(obj: Obj<F>): (r: bool)
      reads this, if obj.Dir? then {obj.d} else {}
      ensures obj == Dir(this) ==> r
      ensures !obj.Dir? ==> !r
      ensures obj.Dir? ==> (r <==> obj.d == this ||
                                   (obj.d.provider == provider && obj.d.connection == connection && obj.d.path == path))
      ensures r ==> obj.d.HashCode() == HashCode()
    {
      if obj == Dir(this) then true
      else if !obj.Dir? then false
      else obj.d.provider == provider && obj.d.connection == connection && obj.d.path == path
    }

    /**
     * `create`: a new directory named from the file object (see
     * `FolderName`), with its URI as path and the given parent; connection
     * and root are set only for a non-null connection; a null domain
     * becomes ""; the three flags are set; the date is the content's
     * modification time, or the current time when reading it fails.
     */
    constructor Create(provider: string, parent: Option<string>, file: FileObjectView,
                       connection: Option<string>, domain: Option<string>,
                       getName: string -> string, providerName: string, now: int)
      ensures this.provider == provider && children == []
      ensures name == Some(FolderName(file, getName))
      ensures path == Some(file.uri) && this.parent == parent
      ensures connection.Some? ==> this.connection == connection && root == Some(providerName)
      ensures connection.None? ==> this.connection.None? && root.None?
      ensures this.domain == Some(if domain.Some? then domain.value else "")
      ensures canEdit && hasChildren && canAddChildren
      ensures date == Some(if file.lastModified.Some? then file.lastModified.value else now)
    {
      this.provider := provider;
      children := [];
      if EndsWithSlash(file.nameText) {
        var adjustedName := file.nameText;
        name := Some(getName(adjustedName[..|adjustedName| - 1]));
      } else {
        name := Some(file.baseName);
      }
      path := Some(file.uri);
      this.parent := parent;
      if connection.Some? {
        this.connection := connection;
        root := Some(providerName);
      } else {
        this.connection := None;
        root := None;
      }
      this.domain := Some(if domain.Some? then domain.value else "");
      canEdit := true;
      hasChildren := true;
      canAddChildren := true;
      match file.lastModified
      case Some(t) => date := Some(t);
      case None => date := Some(now);
    }
  }

  /** `equals` between two directories is symmetric. */
  lemma EqualsSymmetric<F>(a: VfsDirectory<F>, b: VfsDirectory<F>)
    ensures a.Equals(Dir(b)) == b.Equals(Dir(a))
  {
  }
}
