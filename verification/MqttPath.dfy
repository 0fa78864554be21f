/** Building MQTT paths in character buffers. The lock, the hub and the official-firmware bridge
    test the buffer they are writing, not the path they are copying; the opener tests the path. */
module MqttPath {
  import opened CStrings

  // ---------------------------------------------------------------- the self-reading loop

  /** What the self-reading loop leaves: with an empty prefix it stops at the first NUL that the
      uninitialised buffer happened to hold. */
  function SelfRead(prefix: string, sub: string, junk: seq<char>): string {
    if prefix != "" then prefix + sub
    else sub[..if |CString(junk)| < |sub| then |CString(junk)| else |sub|]
  }

  /** Memory the loop touches: with a non-empty prefix it copies |prefix| - 1 bytes past the path's
      terminator before it meets it in the buffer. */
  ghost predicate Fits(prefix: string, sub: string, path: seq<char>, out: seq<char>) {
    if prefix != "" then
      |prefix| + |sub| <= |path| && 2 * |prefix| + |sub| <= |out| && |prefix| + |sub| + 2 <= |out|
    else
      |CString(out)| <= |path| && |CString(out)| + 2 <= |out|
  }

  method BuildSelfReading(inPath: seq<char>, path: seq<char>, out: array<char>, ghost sub: string)
    requires Holds(path, sub) && Fits(CString(inPath), sub, path, out[..])
    modifies out
    ensures CString(out[..]) == SelfRead(CString(inPath), sub, old(out[..]))
  {
    ghost var prefix, junk := CString(inPath), out[..];
    ghost var stop := if prefix != "" then |prefix| + |sub| else |CString(junk)|;
    ghost var copied := prefix + path[..stop];
    NoNulBefore(prefix, sub, path, junk);
    var offset := CopyPrefix(inPath, out);
    var i := 0;
    while out[i] != NUL
      invariant 0 <= i <= stop && offset == |prefix| + i
      invariant forall k :: 0 <= k < offset ==> out[k] == copied[k]
      invariant forall k :: offset <= k < out.Length ==> out[k] == junk[k]
      decreases stop - i
    {
      out[offset] := path[i];
      i := i + 1;
      offset := offset + 1;
    }
    out[i + 1] := NUL;
    SelfReadHolds(prefix, sub, junk, path, out[..]);
  }

  /** Where the loop tests: within what it copied, or in old contents if the prefix is empty. */
  lemma NoNulBefore(prefix: string, sub: string, path: seq<char>, junk: seq<char>)
    requires Holds(path, sub) && NUL !in prefix && Fits(prefix, sub, path, junk)
    ensures prefix != "" ==>
              var copied := prefix + path[..|prefix| + |sub|];
              copied[|prefix| + |sub|] == NUL && forall k :: 0 <= k < |prefix| + |sub| ==> copied[k] != NUL
    ensures prefix == "" ==> forall k :: 0 <= k < |CString(junk)| ==> junk[k] != NUL
  {
    NoNulWithin(junk, CString(junk));
    NoNulWithin(prefix, prefix);
    NoNulWithin(path, sub);
  }

  lemma SelfReadHolds(prefix: string, sub: string, junk: seq<char>, path: seq<char>, out: seq<char>)
    requires Holds(path, sub) && NUL !in prefix && |out| == |junk| && Fits(prefix, sub, path, junk)
    requires prefix != "" ==> forall k :: 0 <= k <= |prefix| + |sub| ==> out[k] == (prefix + path)[k]
    requires prefix == "" ==> forall k :: 0 <= k < |CString(junk)| ==> out[k] == path[k]
    requires prefix == "" ==> out[|CString(junk)|] == NUL
    ensures CString(out) == SelfRead(prefix, sub, junk)
  {
    var r := SelfRead(prefix, sub, junk);
    if prefix != "" {
      assert out[..|r|] == (prefix + path)[..|r|] == prefix + path[..|sub|];
      assert out[|r|] == path[|sub|];
    } else {
      assert out[..|r|] == path[..|r|] == r;
    }
    HeldIsCString(out, r);
  }

  method CopyPrefix(inPath: seq<char>, out: array<char>) returns (offset: nat)
    requires |CString(inPath)| <= out.Length
    modifies out
    ensures offset == |CString(inPath)|
    ensures forall k :: 0 <= k < offset ==> out[k] == CString(inPath)[k]
    ensures forall k :: offset <= k < out.Length ==> out[k] == old(out[k])
  {
    offset := 0;
    NoNulWithin(inPath, CString(inPath));
    while offset < |inPath| && inPath[offset] != NUL
      invariant 0 <= offset <= |CString(inPath)|
      invariant forall k :: 0 <= k < offset ==> out[k] == CString(inPath)[k]
      invariant forall k :: offset <= k < out.Length ==> out[k] == old(out[k])
    {
      out[offset] := inPath[offset];
      offset := offset + 1;
    }
  }

  /** Exactly when the self-reading loop builds prefix ++ path: unless the prefix is empty and the
      buffer's old contents end the loop before the path does. */
  lemma SelfReadIsConcatenation(prefix: string, sub: string, junk: seq<char>)
    ensures SelfRead(prefix, sub, junk) == prefix + sub <==> prefix != "" || |CString(junk)| >= |sub|
  {
    if prefix == "" {
      assert prefix + sub == sub;
    }
  }

  // ---------------------------------------------------------------- the plain loop

  /** Copies a path up to its terminator, which stays behind. */
  method AppendPath(path: seq<char>, out: array<char>, start: nat, ghost sub: string) returns (offset: nat)
    requires Holds(path, sub) && start + |sub| <= out.Length
    modifies out
    ensures offset == start + |sub|
    ensures out[..offset] == old(out[..start]) + sub
  {
    NoNulWithin(path, sub);
    offset := start;
    var i := 0;
    while path[i] != NUL
      invariant 0 <= i <= |sub| && offset == start + i
      invariant out[..offset] == old(out[..start]) + sub[..i]
      decreases |sub| - i
    {
      out[offset] := path[i];
      i := i + 1;
      offset := offset + 1;
    }
    assert sub[..i] == sub;
  }

  method BuildPlain(inPath: seq<char>, path: seq<char>, out: array<char>, ghost sub: string)
    requires Holds(path, sub) && |CString(inPath)| + |sub| < out.Length
    modifies out
    ensures CString(out[..]) == CString(inPath) + sub
  {
    ghost var prefix := CString(inPath);
    var start := CopyPrefix(inPath, out);
    assert out[..start] == prefix;
    var offset := AppendPath(path, out, start, sub);
    out[offset] := NUL;
    assert out[..offset] == prefix + sub;
    HeldIsCString(out[..], prefix + sub);
  }

  // ---------------------------------------------------------------- joining with slashes

  /** Paths put together as the hub subscribes and publishes: a slash before every path but the
      first, unless it brings its own. */
  function Join(paths: seq<string>): string {
    if paths == [] then ""
    else
      var last := paths[|paths| - 1];
      Join(paths[..|paths| - 1]) + (if |paths| > 1 && (last == "" || last[0] != '/') then "/" else "") + last
  }

  /** The paths after the first, each with a slash of its own or one put before it. */
  function WithSlashes(paths: seq<string>): string {
    if paths == [] then ""
    else if paths[0] != "" && paths[0][0] == '/' then paths[0] + WithSlashes(paths[1..])
    else "/" + paths[0] + WithSlashes(paths[1..])
  }

  lemma {:induction false} JoinedOneByOne(paths: seq<string>)
    requires paths != []
    ensures Join(paths) == paths[0] + WithSlashes(paths[1..])
  {
    var before, last := paths[..|paths| - 1], paths[|paths| - 1];
    if |paths| == 1 {
      assert paths[1..] == [] && Join(before) == "";
    } else {
      JoinedOneByOne(before);
      assert paths[1..] == before[1..] + [last];
      SlashesOfSum(before[1..], last);
    }
  }

  lemma {:induction false} SlashesOfSum(paths: seq<string>, last: string)
    ensures WithSlashes(paths + [last]) == WithSlashes(paths) + WithSlashes([last])
  {
    if paths == [] {
      assert paths + [last] == [last];
    } else {
      assert (paths + [last])[1..] == paths[1..] + [last];
      SlashesOfSum(paths[1..], last);
    }
  }

  method BuildJoined(out: array<char>, paths: seq<seq<char>>, ghost subs: seq<string>)
    requires |paths| == |subs| && forall k :: 0 <= k < |paths| ==> Holds(paths[k], subs[k])
    requires forall k :: 0 <= k <= |subs| ==> |Join(subs[..k])| < out.Length
    modifies out
    ensures CString(out[..]) == Join(subs)
    ensures subs != [] ==> CString(out[..]) == subs[0] + WithSlashes(subs[1..])
  {
    var offset := 0;
    for pathCount := 0 to |paths|
      invariant offset == |Join(subs[..pathCount])| && offset < out.Length
      invariant out[..offset] == Join(subs[..pathCount]) && NUL !in Join(subs[..pathCount])
    {
      var path := paths[pathCount];
      ghost var sub, before := subs[pathCount], Join(subs[..pathCount]);
      ghost var slash := if pathCount > 0 && (sub == "" || sub[0] != '/') then "/" else "";
      assert subs[..pathCount + 1][..pathCount] == subs[..pathCount];
      assert Join(subs[..pathCount + 1]) == before + slash + sub;
      assert sub != "" ==> path[0] == sub[0];
      if pathCount > 0 && path[0] != '/' {
        out[offset] := '/';
        offset := offset + 1;
      }
      assert out[..offset] == before + slash;
      offset := AppendPath(path, out, offset, sub);
    }
    assert subs[..|subs|] == subs;
    out[offset] := NUL;
    assert out[..offset] == Join(subs);
    HeldIsCString(out[..], Join(subs));
    if subs != [] {
      JoinedOneByOne(subs);
    }
  }

  // ---------------------------------------------------------------- comparing topics

  /** `comparePrefixedPath`, with its uninitialised local buffer as a parameter: it recognises the
      topic that the self-reading loop builds, for an empty prefix one that the buffer's old contents
      decide. */
  method ComparePrefixedPath(
    inPath: seq<char>, fullPath: string, path: seq<char>, prefixedPath: array<char>, ghost sub: string)
    returns (same: bool)
    requires Holds(path, sub) && Fits(CString(inPath), sub, path, prefixedPath[..])
    modifies prefixedPath
    ensures same <==> fullPath == SelfRead(CString(inPath), sub, old(prefixedPath[..]))
  {
    BuildSelfReading(inPath, path, prefixedPath, sub);
    same := fullPath == CString(prefixedPath[..]);
  }

  /** So it recognises exactly prefix ++ path if the prefix is not empty or the old contents are long
      enough, and with an empty prefix and shorter old contents it takes as much of the path as these are long. */
  lemma RecognisedTopic(prefix: string, sub: string, junk: seq<char>)
    ensures prefix != "" || |CString(junk)| >= |sub| ==> SelfRead(prefix, sub, junk) == prefix + sub
    ensures prefix == "" && |CString(junk)| < |sub| ==> SelfRead(prefix, sub, junk) == sub[..|CString(junk)|]
  {
    SelfReadIsConcatenation(prefix, sub, junk);
  }

  method PathEquals(prefix: seq<char>, path: seq<char>, referencePath: string, ghost a: string, ghost b: string)
    returns (same: bool)
    requires Holds(prefix, a) && Holds(path, b) && |a| + |b| < 499
    ensures same <==> referencePath == Join([a, b])
  {
    var prefixedPath := new char[500];
    JoinTwo(a, b);
    BuildJoined(prefixedPath, [prefix, path], [a, b]);
    same := CString(prefixedPath[..]) == referencePath;
  }

  lemma JoinTwo(a: string, b: string)
    ensures Join([a, b]) == a + (if b == "" || b[0] != '/' then "/" else "") + b
    ensures forall k :: 0 <= k <= 2 ==> |Join([a, b][..k])| <= |a| + |b| + 1
  {
    assert [a, b][..2] == [a, b] && [a, b][..1] == [a] && [a][..0] == [] && [a, b][..0] == [];
    assert Join([a]) == a;
    forall k | 0 <= k <= 2 ensures |Join([a, b][..k])| <= |a| + |b| + 1 {
      assert k == 0 || k == 1 || k == 2;
    }
  }

  /** The two ways of putting a topic together agree exactly on paths that start with a slash. So a
      topic subscribed under such a path is recognised as that path and as no other. */
  lemma SubscribedIsRecognised(prefix: string, sub: string, other: string)
    ensures Join([prefix, sub]) == prefix + sub <==> sub != "" && sub[0] == '/'
    ensures sub != "" && sub[0] == '/' ==> (Join([prefix, sub]) == prefix + other <==> sub == other)
  {
    JoinTwo(prefix, sub);
    assert |prefix + "/" + sub| == |prefix + sub| + 1;
    assert (prefix + sub)[|prefix|..] == sub && (prefix + other)[|prefix|..] == other;
    assert prefix + "" + sub == prefix + sub;
  }
}
