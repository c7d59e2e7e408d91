/**
 The byte stream the package digest is taken over: for every file its path, a NUL, the decimal
 length of its content, a NUL, the content, a NUL. Bytes are characters here, as in a binary string.
 */
module Framing {
  import opened Options
  import opened Decimals

  datatype File = File(path: string, content: string)

  datatype Entry = Entry(file: string, size: nat, sha256: string)

  const NUL := '\0'

  function FrameOne(f: File): string {
    f.path + [NUL] + Decimal(|f.content|) + [NUL] + f.content + [NUL]
  }

  function Frame(files: seq<File>): string {
    if files == [] then "" else FrameOne(files[0]) + Frame(files[1..])
  }

  /** File paths of the operating system carry no NUL. */
  predicate PlainPaths(files: seq<File>) {
    forall i | 0 <= i < |files| :: NUL !in files[i].path
  }

  /** What the manifest says of a file: its path, its size and the digest of its content. */
  function EntryOf(f: File, digest: string -> string): Entry {
    Entry(f.path, |f.content|, digest(f.content))
  }

  lemma FrameStep(files: seq<File>, i: nat)
    requires i < |files|
    ensures Frame(files[i..]) == FrameOne(files[i]) + Frame(files[i + 1..])
  {
    hide FrameOne;
    assert files[i..][0] == files[i] && files[i..][1..] == files[i + 1..];
  }

  /** The loop that feeds the hash and lists the files. */
  method BuildManifest(files: seq<File>, digest: string -> string) returns (hashed: string, entries: seq<Entry>)
    ensures hashed == Frame(files)
    ensures |entries| == |files| && forall i | 0 <= i < |files| :: entries[i] == EntryOf(files[i], digest)
  {
    hide FrameOne, Frame;
    hashed, entries := "", [];
    var i := 0;
    assert files[0..] == files;
    while i < |files|
      invariant 0 <= i <= |files|
      invariant hashed + Frame(files[i..]) == Frame(files)
      invariant |entries| == i && forall j | 0 <= j < i :: entries[j] == EntryOf(files[j], digest)
    {
      var f := files[i];
      FrameStep(files, i);
      var fed := FeedFile(hashed, f);
      assert fed + Frame(files[i + 1..]) == hashed + Frame(files[i..]);
      hashed := fed;
      entries := entries + [Entry(f.path, |f.content|, digest(f.content))];
      i := i + 1;
    }
    NothingLeft(files, hashed);
  }

  /** The six updates of the hash for one file. */
  method FeedFile(hashed: string, f: File) returns (fed: string)
    ensures fed == hashed + FrameOne(f)
  {
    hide Decimal;
    fed := hashed + f.path;
    fed := fed + [NUL];
    fed := fed + Decimal(|f.content|);
    fed := fed + [NUL];
    fed := fed + f.content;
    fed := fed + [NUL];
  }

  lemma NothingLeft(files: seq<File>, hashed: string)
    ensures hashed + Frame(files[|files|..]) == hashed
  {
    assert files[|files|..] == [];
  }

  // ----- a decoder

  /** The position of the first NUL, or the length. */
  function FirstNul(s: string): (i: nat)
    ensures i <= |s| && (i < |s| ==> s[i] == NUL) && forall j | 0 <= j < i :: s[j] != NUL
  {
    if s == "" then 0 else if s[0] == NUL then 0 else 1 + FirstNul(s[1..])
  }

  lemma FirstNulAfter(prefix: string, tail: string)
    requires NUL !in prefix
    ensures FirstNul(prefix + [NUL] + tail) == |prefix|
  {
    var s := prefix + [NUL] + tail;
    assert s[|prefix|] == NUL;
    assert forall j | 0 <= j < |prefix| :: s[j] == prefix[j];
  }

  function UnframeOne(s: string): Option<(File, string)> {
    var a := FirstNul(s);
    if a == |s| then None
    else
      var path, s1 := s[..a], s[a + 1..];
      var b := FirstNul(s1);
      if b == |s1| || !Canonical(s1[..b]) then None
      else
        var n, s2 := Value(s1[..b]), s1[b + 1..];
        if |s2| <= n || s2[n] != NUL then None else Some((File(path, s2[..n]), s2[n + 1..]))
  }

  lemma UnframeShrinks(s: string)
    requires UnframeOne(s).Some?
    ensures |UnframeOne(s).value.1| < |s|
  {
  }

  function Unframe(s: string): Option<seq<File>>
    decreases |s|
  {
    if s == "" then Some([])
    else match UnframeOne(s)
      case None => None
      case Some((f, rest)) =>
        UnframeShrinks(s);
        match Unframe(rest)
        case None => None
        case Some(fs) => Some([f] + fs)
  }

  lemma DecimalHasNoNul(n: nat)
    ensures NUL !in Decimal(n) && Canonical(Decimal(n)) && Value(Decimal(n)) == n
  {
    hide Decimal, Value;
    ValueOfDecimal(n);
  }

  lemma TakeField(field: string, tail: string)
    requires NUL !in field
    ensures var s := field + [NUL] + tail;
            FirstNul(s) == |field| < |s| && s[..|field|] == field && s[|field| + 1..] == tail
  {
    hide FirstNul;
    FirstNulAfter(field, tail);
  }

  lemma UnframeOneInverts(f: File, tail: string)
    requires NUL !in f.path
    ensures UnframeOne(FrameOne(f) + tail) == Some((f, tail))
  {
    hide Decimal, Value, Canonical, FirstNul;
    var digits := Decimal(|f.content|);
    DecimalHasNoNul(|f.content|);
    var s2 := f.content + [NUL] + tail;
    var s1 := digits + [NUL] + s2;
    assert FrameOne(f) + tail == f.path + [NUL] + s1;
    TakeField(f.path, s1);
    TakeField(digits, s2);
    assert s2[..|f.content|] == f.content && s2[|f.content|] == NUL && s2[|f.content| + 1..] == tail;
  }

  /** The decoder inverts the framing of every list of files. */
  lemma {:induction false} UnframeInverts(files: seq<File>)
    requires PlainPaths(files)
    ensures Unframe(Frame(files)) == Some(files)
  {
    hide UnframeOne;
    if files != [] {
      var f, rest := files[0], files[1..];
      assert PlainPaths(rest) by {
        assert forall i | 0 <= i < |rest| :: rest[i] == files[i + 1];
      }
      UnframeOneInverts(f, Frame(rest));
      UnframeInverts(rest);
      assert Frame(files) != "" by {
        assert |FrameOne(f)| > 0;
      }
      assert files == [f] + rest;
    }
  }

  /** So two package payloads that feed the hash the same bytes are the same list of files. */
  lemma FramingIsInjective(a: seq<File>, b: seq<File>)
    requires PlainPaths(a) && PlainPaths(b) && Frame(a) == Frame(b)
    ensures a == b
  {
    UnframeInverts(a);
    UnframeInverts(b);
  }

  /** The hypothesis on paths is needed: a NUL in a path can imitate the end of one. */
  lemma NulInPathCollides()
    ensures var a := [File("a", ""), File("b", "")];
            var b := [File("a" + [NUL] + "0" + [NUL] + [NUL] + "b", "")];
            a != b && Frame(a) == Frame(b)
  {
    var a := [File("a", ""), File("b", "")];
    var b := [File("a" + [NUL] + "0" + [NUL] + [NUL] + "b", "")];
    assert Decimal(0) == "0";
    assert a[1..] == [File("b", "")] && a[1..][1..] == [] && b[1..] == [];
    assert FrameOne(a[0]) == "a" + [NUL] + "0" + [NUL] + [NUL];
    assert FrameOne(a[1]) == "b" + [NUL] + "0" + [NUL] + [NUL];
    assert Frame(a[1..]) == FrameOne(a[1]);
    assert Frame(a) == FrameOne(a[0]) + FrameOne(a[1]);
    assert Frame(b) == FrameOne(b[0]);
    assert FrameOne(b[0]) == FrameOne(a[0]) + FrameOne(a[1]);
  }
}
