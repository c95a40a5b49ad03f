/** Where the client's file commands may go: `safePath` joins a name to the client's root after
    normalising it, here by the component rule of `filepath.Clean` on slash-separated paths. */
module SafePath {
  import opened ByteStrings

  const SLASH: byte := 47
  const DOT: Bytes := [46]
  const DOTDOT: Bytes := [46, 46]

  /** A component that names something: not empty, `.` or `..`, and without a slash. */
  predicate Plain(p: Bytes) { p != [] && p != DOT && p != DOTDOT && SLASH !in p }

  ghost predicate AllPlain(parts: seq<Bytes>) { forall p :: p in parts ==> Plain(p) }

  /** Empty components and `.` are dropped; `..` takes back the one before it, or nothing at the
      top. */
  function Next(above: seq<Bytes>, p: Bytes): seq<Bytes> {
    if p == [] || p == DOT then above
    else if p != DOTDOT then above + [p]
    else if above == [] then []
    else above[..|above| - 1]
  }

  function Resolve(above: seq<Bytes>, parts: seq<Bytes>): seq<Bytes>
    decreases parts
  {
    if parts == [] then above else Resolve(Next(above, parts[0]), parts[1..])
  }

  function Rooted(parts: seq<Bytes>): Bytes { [SLASH] + Join(parts, SLASH) }

  predicate Absolute(path: Bytes) { path != [] && path[0] == SLASH }

  function Components(path: Bytes): seq<Bytes> { Resolve([], Split(path, SLASH)) }

  /** `filepath.Clean` of an absolute path. */
  function Clean(path: Bytes): Bytes
    requires Absolute(path)
  {
    Rooted(Components(path))
  }

  /** The root is what `filepath.Abs` returns: absolute and clean. */
  ghost predicate Root(root: Bytes) { Absolute(root) && Clean(root) == root }

  function SafePath(root: Bytes, name: Bytes): Bytes
    requires Absolute(root)
  {
    var rest := Clean([SLASH] + name)[1..];
    Clean(root + [SLASH] + rest)
  }

  // ----- Normal forms -----

  lemma {:induction false} ResolvePlain(above: seq<Bytes>, parts: seq<Bytes>)
    requires AllPlain(parts)
    ensures Resolve(above, parts) == above + parts
    decreases parts
  {
    if parts == [] {
      assert above + parts == above;
    } else {
      assert Plain(parts[0]);
      ResolvePlain(above + [parts[0]], parts[1..]);
      assert above + [parts[0]] + parts[1..] == above + parts;
    }
  }

  lemma {:induction false} ResolveIsPlain(above: seq<Bytes>, parts: seq<Bytes>)
    requires AllPlain(above) && forall p :: p in parts ==> SLASH !in p
    ensures AllPlain(Resolve(above, parts))
    decreases parts
  {
    if parts == [] {
    } else {
      assert parts[0] in parts;
      ResolveIsPlain(Next(above, parts[0]), parts[1..]);
    }
  }

  lemma {:induction false} ResolveInSteps(above: seq<Bytes>, a: seq<Bytes>, b: seq<Bytes>)
    ensures Resolve(above, a + b) == Resolve(Resolve(above, a), b)
    decreases a
  {
    if a == [] {
      assert a + b == b;
    } else {
      assert (a + b)[0] == a[0] && (a + b)[1..] == a[1..] + b;
      ResolveInSteps(Next(above, a[0]), a[1..], b);
    }
  }

  lemma ComponentsArePlain(path: Bytes)
    ensures AllPlain(Components(path))
  {
    ResolveIsPlain([], Split(path, SLASH));
  }

  /** Plain components are the normal form of their path. */
  lemma ComponentsOfJoin(parts: seq<Bytes>)
    requires AllPlain(parts)
    ensures Components(Join(parts, SLASH)) == parts == Components(Rooted(parts))
  {
    var joined := Join(parts, SLASH);
    if parts == [] {
      assert Split([], SLASH) == [[]] && Resolve([], [[]]) == Resolve([], [[]][1..]);
    } else {
      SplitJoin(parts, SLASH);
      ResolvePlain([], parts);
    }
    ComponentsBelow([], joined);
    assert [] + [SLASH] + joined == Rooted(parts);
  }

  /** Joining goes on from where the first path ends. */
  lemma ComponentsBelow(a: Bytes, b: Bytes)
    ensures Components(a + [SLASH] + b) == Resolve(Components(a), Split(b, SLASH))
    ensures a == [] ==> Components(a + [SLASH] + b) == Components(b)
  {
    SplitConcat(a, b, SLASH);
    ResolveInSteps([], Split(a, SLASH), Split(b, SLASH));
  }

  lemma CleanTwice(path: Bytes)
    requires Absolute(path)
    ensures Root(Clean(path)) && Components(Clean(path)) == Components(path)
  {
    ComponentsArePlain(path);
    ComponentsOfJoin(Components(path));
  }

  // ----- What safePath promises -----

  /** The path's components are the root's followed by those of the normalised name, none of which
      is empty, `.` or `..`; normalising that suffix again changes nothing, and neither does
      cleaning the whole. */
  lemma SafePathStaysBelow(root: Bytes, name: Bytes)
    requires Root(root)
    ensures var suffix := Components(name);
            && SafePath(root, name) == Rooted(Components(root) + suffix)
            && Components(SafePath(root, name)) == Components(root) + suffix
            && AllPlain(suffix) && Components(Join(suffix, SLASH)) == suffix
            && Root(SafePath(root, name))
  {
    var suffix, above := Components(name), Components(root);
    ComponentsBelow([], name);
    assert [] + [SLASH] + name == [SLASH] + name;
    var rest := Clean([SLASH] + name)[1..];
    assert rest == Join(suffix, SLASH);
    ComponentsArePlain(name);
    ComponentsArePlain(root);
    ComponentsOfJoin(suffix);
    ComponentsBelow(root, rest);
    if suffix != [] {
      SplitJoin(suffix, SLASH);
    } else {
      assert Split([], SLASH) == [[]] && Resolve(above, [[]]) == Resolve(above, [[]][1..]);
    }
    ResolvePlain(above, suffix);
    CleanTwice(root + [SLASH] + rest);
  }

  /** What one more component makes of others: an empty one or `.` changes nothing, `..` takes the
      last one back unless no more than `floor` are left, and any other is added. */
  predicate Appended(parts: seq<Bytes>, c: Bytes, more: seq<Bytes>, floor: nat) {
    if c == [] || c == [46] then more == parts
    else if c == [46, 46] then more == if |parts| <= floor then parts else parts[..|parts| - 1]
    else more == parts + [c]
  }

  lemma AppendedBelow(above: seq<Bytes>, parts: seq<Bytes>, c: Bytes, more: seq<Bytes>)
    requires Appended(parts, c, more, 0)
    ensures Appended(above + parts, c, above + more, |above|)
  {
    if c == [46, 46] && parts != [] {
      assert (above + parts)[..|above + parts| - 1] == above + parts[..|parts| - 1];
    }
    assert above + (parts + [c]) == above + parts + [c];
  }

  lemma NextAppends(parts: seq<Bytes>, c: Bytes)
    ensures Appended(parts, c, Next(parts, c), 0)
  {
  }

  /** One more component of a path; with `ComponentsOfNothing` this determines the components of
      every path. */
  lemma OneMoreComponent(path: Bytes, c: Bytes)
    requires 47 !in c
    ensures Appended(Components(path), c, Components(path + [47] + c), 0)
  {
    ComponentsBelow(path, c);
    SplitNone(c, SLASH);
    NextAppends(Components(path), c);
    assert Resolve(Components(path), [c]) == Resolve(Next(Components(path), c), [c][1..]);
  }

  lemma ComponentsOfNothing()
    ensures Components([]) == []
  {
    assert Resolve([], [[]]) == Resolve([], [[]][1..]);
  }

  /** One more component of a name: `..` climbs one level, but never above the root. */
  lemma OneMoreName(root: Bytes, name: Bytes, c: Bytes)
    requires Root(root) && 47 !in c
    ensures Appended(Components(SafePath(root, name)), c, Components(SafePath(root, name + [47] + c)), |Components(root)|)
  {
    SafePathStaysBelow(root, name);
    SafePathStaysBelow(root, name + [SLASH] + c);
    OneMoreComponent(name, c);
    AppendedBelow(Components(root), Components(name), c, Components(name + [SLASH] + c));
  }

  /** What can be reached is exactly what lies below the root. */
  lemma ReachableIffBelow(root: Bytes, path: Bytes)
    requires Root(root)
    ensures (exists name :: SafePath(root, name) == path) <==> Root(path) && Components(root) <= Components(path)
  {
    if Root(path) && Components(root) <= Components(path) {
      var name := NameFor(root, path);
    }
    forall name | SafePath(root, name) == path ensures Root(path) && Components(root) <= Components(path) {
      SafePathStaysBelow(root, name);
    }
  }

  /** The name that leads from the root to a clean path below it. */
  lemma NameFor(root: Bytes, path: Bytes) returns (name: Bytes)
    requires Root(root) && Root(path) && Components(root) <= Components(path)
    ensures SafePath(root, name) == path
  {
    var above, parts := Components(root), Components(path);
    var suffix := parts[|above|..];
    ComponentsArePlain(path);
    assert forall p :: p in suffix ==> p in parts;
    ComponentsOfJoin(suffix);
    name := Join(suffix, SLASH);
    SafePathStaysBelow(root, name);
    assert above + suffix == parts;
  }

  lemma {:induction false} JoinAppend(a: seq<Bytes>, b: seq<Bytes>)
    requires a != [] && b != []
    ensures Join(a + b, SLASH) == Join(a, SLASH) + [SLASH] + Join(b, SLASH)
  {
    assert (a + b)[0] == a[0];
    if |a| == 1 {
      assert (a + b)[1..] == b;
    } else {
      assert (a + b)[1..] == a[1..] + b;
      JoinAppend(a[1..], b);
    }
  }

  lemma RootedAppend(a: seq<Bytes>, b: seq<Bytes>)
    requires a != [] && b != []
    ensures Rooted(a) + [SLASH] <= Rooted(a + b)
  {
    JoinAppend(a, b);
    assert Rooted(a + b) == Rooted(a) + [SLASH] + Join(b, SLASH);
  }

  /** Read as text: the path is the root itself, or starts with the root and a slash. */
  lemma SafePathStartsWithRoot(root: Bytes, name: Bytes)
    requires Root(root) && root != [SLASH]
    ensures SafePath(root, name) == root || root + [SLASH] <= SafePath(root, name)
  {
    var above, suffix := Components(root), Components(name);
    SafePathStaysBelow(root, name);
    assert Join([], SLASH) == [];
    assert above != [];
    if suffix != [] {
      RootedAppend(above, suffix);
    } else {
      assert above + suffix == above;
    }
  }
}
