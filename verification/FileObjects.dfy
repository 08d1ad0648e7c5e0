/** The in-memory file objects handed to the Java compiler: a source file
    with fixed content, and a class-file output backed by a byte buffer.
    Both are named by a "memo:///" URI built from a class name and a kind. */
module FileObjects {

  /** The kinds of file object, each with its file-name extension. */
  datatype Kind = SOURCE | CLASS | HTML | OTHER

  function Extension(kind: Kind): string
  {
    match kind
    case SOURCE => ".java"
    case CLASS => ".class"
    case HTML => ".html"
    case OTHER => ""
  }

  const Scheme: string := "memo:///"

  /** The class name with every '.' turned into '/', every other
      character kept in place. */
  function DotsToSlashes(name: string): (path: string)
    ensures |path| == |name|
    ensures forall i :: 0 <= i < |name| ==> path[i] == (if name[i] == '.' then '/' else name[i])
    ensures '.' !in path
  {
    if name == [] then []
    else [if name[0] == '.' then '/' else name[0]] + DotsToSlashes(name[1..])
  }

  /** The reverse rule: every '/' turned back into '.'. */
  function SlashesToDots(path: string): (name: string)
    ensures |name| == |path|
    ensures forall i :: 0 <= i < |path| ==> name[i] == (if path[i] == '/' then '.' else path[i])
  {
    if path == [] then []
    else [if path[0] == '/' then '.' else path[0]] + SlashesToDots(path[1..])
  }

  /** A class name without '/' is recovered from its path. */
  lemma DotsToSlashesRoundTrip(name: string)
    requires '/' !in name
    ensures SlashesToDots(DotsToSlashes(name)) == name
  {
    var back := SlashesToDots(DotsToSlashes(name));
    forall i | 0 <= i < |name|
      ensures back[i] == name[i]
    {
      assert name[i] != '/';
    }
  }

  /** The URI of a file object: the scheme, the name as a path, and the
      kind's extension. */
  function MemoUri(name: string, kind: Kind): (uri: string)
    ensures |uri| == |Scheme| + |name| + |Extension(kind)|
    ensures uri[..|Scheme|] == Scheme
  {
    Scheme + DotsToSlashes(name) + Extension(kind)
  }

  /** The name part of a URI of a known kind. */
  function PathOf(uri: string, kind: Kind): string
    requires |uri| >= |Scheme| + |Extension(kind)|
  {
    uri[|Scheme|..|uri| - |Extension(kind)|]
  }

  /** The name is read back from the URI: the part between the scheme and
      the extension is the name with dots turned into slashes. */
  lemma UriPathIsName(name: string, kind: Kind)
    ensures PathOf(MemoUri(name, kind), kind) == DotsToSlashes(name)
  {
    var uri := MemoUri(name, kind);
    assert uri == Scheme + DotsToSlashes(name) + Extension(kind);
    assert uri[|Scheme|..|uri| - |Extension(kind)|] == DotsToSlashes(name);
  }

  /** For class names without '/', distinct names of the same kind get
      distinct URIs. */
  lemma UriInjective(a: string, b: string, kind: Kind)
    requires '/' !in a && '/' !in b
    requires MemoUri(a, kind) == MemoUri(b, kind)
    ensures a == b
  {
    UriPathIsName(a, kind);
    UriPathIsName(b, kind);
    DotsToSlashesRoundTrip(a);
    DotsToSlashesRoundTrip(b);
  }

  /** A name that already holds '/' can share its URI with a dotted name. */
  lemma SlashedNameCollides()
    ensures MemoUri("a.B", SOURCE) == MemoUri("a/B", SOURCE)
  {
    assert DotsToSlashes("a.B") == "a/B";
    assert DotsToSlashes("a/B") == "a/B";
  }

  /** A source file object: its URI, its kind and its fixed content. */
  datatype Source = Source(uri: string, kind: Kind, content: string)

  /** The Source constructor. */
  function NewSource(name: string, kind: Kind, content: string): (s: Source)
    ensures s.uri == MemoUri(name, kind) && s.kind == kind && s.content == content
  {
    Source(MemoUri(name, kind), kind, content)
  }

  /** getCharContent: the content, whatever the flag. */
  function GetCharContent(s: Source, ignoreEncodingErrors: bool): (c: string)
    ensures c == s.content
  {
    s.content
  }

  /** The content read back is exactly the content given at construction,
      and the flag makes no difference. */
  lemma CharContentIsConstructorContent(name: string, kind: Kind, content: string, flag: bool)
    ensures GetCharContent(NewSource(name, kind, content), flag) == content
    ensures GetCharContent(NewSource(name, kind, content), flag) == GetCharContent(NewSource(name, kind, content), !flag)
  {
  }

  /** An in-memory byte sink that only ever grows. */
  class ByteArrayOutputStream {
    var buf: seq<bv8>

    constructor()
      ensures buf == []
    {
      buf := [];
    }

    /** write(byte[]): appends the bytes in order. */
    method Write(bytes: seq<bv8>)
      modifies this
      ensures buf == old(buf) + bytes
    {
      buf := buf + bytes;
    }

    /** toByteArray: a copy of everything written so far. */
    method ToByteArray() returns (bytes: seq<bv8>)
      ensures bytes == buf
    {
      bytes := buf;
    }
  }

  /** A class-file output object: its URI and kind, and the buffer the
      compiler writes the class file into. */
  class Output {
    const uri: string
    const kind: Kind
    const baos: ByteArrayOutputStream

    constructor(name: string, kind: Kind)
      ensures uri == MemoUri(name, kind) && this.kind == kind
      ensures fresh(baos) && baos.buf == []
    {
      uri := MemoUri(name, kind);
      this.kind := kind;
      baos := new ByteArrayOutputStream();
    }

    /** toByteArray: everything written to the buffer, in order; the buffer
        is left as it is. */
    method ToByteArray() returns (bytes: seq<bv8>)
      ensures bytes == baos.buf
    {
      bytes := baos.ToByteArray();
    }

    /** openOutputStream: the one buffer of this object, on every call. */
    method OpenOutputStream() returns (stream: ByteArrayOutputStream)
      ensures stream == baos
    {
      stream := baos;
    }
  }

  /** A new output object collects, in order, the bytes written through
      every stream it hands out. */
  method OutputCollectsWrites(name: string, kind: Kind, first: seq<bv8>, second: seq<bv8>)
    returns (uri: string, bytes: seq<bv8>)
    ensures uri == MemoUri(name, kind)
    ensures bytes == first + second
  {
    var o := new Output(name, kind);
    var s1 := o.OpenOutputStream();
    s1.Write(first);
    var s2 := o.OpenOutputStream();
    s2.Write(second);
    bytes := o.ToByteArray();
    uri := o.uri;
  }
}
