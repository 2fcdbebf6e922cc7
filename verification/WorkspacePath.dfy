/** Validation of workspace-relative paths. */
module WorkspacePath {
  import opened Splitting
  import opened Text

  const MAX_PATH_BYTES := 512
  const MAX_PATH_DEPTH := 64

  datatype Component = ParentDir | CurDir | Normal(name: string)

  datatype Verdict = Accepted | Empty | TooLong | NullByte | Absolute | Escapes | TooDeep

  /** `Path::components` of a relative path: separators may repeat, `.` counts only in front. */
  function Components(path: string): seq<Component> {
    var pieces := Gaps(path, "/");
    (if pieces != [] && pieces[0] == "." then [CurDir] else []) + Meaningful(pieces)
  }

  function Meaningful(pieces: seq<string>): seq<Component> {
    if pieces == [] then []
    else
      (if pieces[0] == "" || pieces[0] == "." then []
       else if pieces[0] == ".." then [ParentDir]
       else [Normal(pieces[0])]) + Meaningful(pieces[1..])
  }

  lemma FirstMeaningful(piece: string, rest: seq<string>)
    ensures Meaningful([piece] + rest) == Meaningful([piece]) + Meaningful(rest)
  {
    assert ([piece] + rest)[1..] == rest && [piece][1..] == [];
    assert Meaningful([]) == [];
  }

  // ---------------------------------------------------------------- what a text consists of

  /** A name between separators. */
  predicate PlainName(name: string) { '/' !in name && name !in {"", ".", ".."} }

  lemma NoSeparator(piece: string)
    requires '/' !in piece
    ensures Gaps(piece, "/") == [piece] && GapOk(piece, "/")
  {
    OccursChar(piece, '/');
    forall j | 0 <= j < |piece| ensures !MatchAt(piece + "/", "/", j) {
      assert (piece + "/")[j..j + 1] == [piece[j]];
    }
  }

  lemma FirstSeparator(s: string, i: nat)
    requires Find(s, "/") == Some(i)
    ensures '/' !in s[..i] && s == s[..i] + "/" + s[i + 1..]
  {
    BeforeFirstMatch(s, "/", i);
    OccursChar(s[..i], '/');
    MatchSplits(s, "/", i);
  }

  lemma CutAtFirst(piece: string, rest: string)
    requires '/' !in piece
    ensures Gaps(piece + "/" + rest, "/") == [piece] + Gaps(rest, "/")
  {
    NoSeparator(piece);
    UniqueStep(piece, "/", rest);
  }

  /** A separator parts the pieces before it from those behind it. */
  lemma {:induction false} CutAnywhere(p: string, q: string)
    ensures Gaps(p + "/" + q, "/") == Gaps(p, "/") + Gaps(q, "/")
    decreases |p|
  {
    var found := Find(p, "/");
    if found.Some? {
      var head, rest := p[..found.value], p[found.value + 1..];
      FirstSeparator(p, found.value);
      CutAnywhere(rest, q);
      CutTwice(head, rest, q);
    } else {
      OccursChar(p, '/');
      NoSeparator(p);
      CutAtFirst(p, q);
    }
  }

  lemma CutTwice(head: string, rest: string, q: string)
    requires '/' !in head && Gaps(rest + "/" + q, "/") == Gaps(rest, "/") + Gaps(q, "/")
    ensures Gaps(head + "/" + rest + "/" + q, "/") == Gaps(head + "/" + rest, "/") + Gaps(q, "/")
  {
    var tail := rest + "/" + q;
    assert head + "/" + rest + "/" + q == head + "/" + tail;
    CutAtFirst(head, tail);
    CutAtFirst(head, rest);
    Regroup([head], Gaps(rest, "/"), Gaps(q, "/"));
  }

  lemma Regroup<T>(a: seq<T>, b: seq<T>, c: seq<T>)
    ensures a + (b + c) == a + b + c
  {
  }

  lemma {:induction false} MeaningfulConcat(a: seq<string>, b: seq<string>)
    ensures Meaningful(a + b) == Meaningful(a) + Meaningful(b)
  {
    if a == [] {
      assert a + b == b;
    } else {
      MeaningfulConcat(a[1..], b);
      assert a == [a[0]] + a[1..];
      Regroup([a[0]], a[1..], b);
      FirstMeaningful(a[0], a[1..]);
      FirstMeaningful(a[0], a[1..] + b);
      Regroup(Meaningful([a[0]]), Meaningful(a[1..]), Meaningful(b));
    }
  }

  /** Whatever stands behind a separator adds its own components, and a dot adds none. */
  lemma ComponentsBehind(p: string, q: string)
    ensures Components(p + "/" + q) == Components(p) + Meaningful(Gaps(q, "/"))
  {
    var a, b := Gaps(p, "/"), Gaps(q, "/");
    CutAnywhere(p, q);
    GapsJoin(p, "/", "/");
    MeaningfulConcat(a, b);
    Regroup(if a[0] == "." then [CurDir] else [], Meaningful(a), Meaningful(b));
  }

  lemma OnePiece(piece: string)
    requires '/' !in piece
    ensures Meaningful(Gaps(piece, "/")) ==
            if piece in {"", "."} then [] else if piece == ".." then [ParentDir] else [Normal(piece)]
  {
    NoSeparator(piece);
    assert [piece][1..] == [];
  }

  /** What the last piece of a path adds. */
  lemma NameBehind(p: string, name: string)
    requires PlainName(name)
    ensures Components(p + "/" + name) == Components(p) + [Normal(name)]
  {
    ComponentsBehind(p, name);
    OnePiece(name);
  }

  lemma ParentBehind(p: string)
    ensures Components(p + "/" + "..") == Components(p) + [ParentDir]
  {
    ComponentsBehind(p, "..");
    OnePiece("..");
  }

  lemma NothingBehind(p: string, piece: string)
    requires piece in {"", "."}
    ensures Components(p + "/" + piece) == Components(p)
  {
    ComponentsBehind(p, piece);
    OnePiece(piece);
  }

  lemma SinglePiece(name: string)
    requires PlainName(name)
    ensures Components(name) == [Normal(name)] && Components("..") == [ParentDir]
    ensures Components(".") == [CurDir] && Components("") == []
  {
    OnePiece(name);
    OnePiece("..");
    OnePiece(".");
    OnePiece("");
    NoSeparator(name);
    NoSeparator("..");
    NoSeparator(".");
    NoSeparator("");
  }

  function Named(names: seq<string>): seq<Component> {
    seq(|names|, i requires 0 <= i < |names| => Normal(names[i]))
  }

  /** Plain names one below the other. */
  lemma {:induction false} PlainPath(names: seq<string>)
    requires names != [] && forall n :: n in names ==> PlainName(n)
    ensures Components(Join(names, "/")) == Named(names) && '/' !in Join(names, "/")[..1]
    ensures Join(names, "/") != ""
  {
    var head, rest := names[0], names[1..];
    assert PlainName(head);
    SinglePiece(head);
    if rest != [] {
      PlainPath(rest);
      assert forall n :: n in rest ==> n in names;
      ComponentsBehind(head, Join(rest, "/"));
      FrontDot(rest);
      assert Named(names) == [Normal(head)] + Named(rest);
    }
  }

  /** A path of plain names does not begin with a dot of its own. */
  lemma FrontDot(names: seq<string>)
    requires names != [] && forall n :: n in names ==> PlainName(n)
    ensures Components(Join(names, "/")) == Meaningful(Gaps(Join(names, "/"), "/"))
  {
    var head := names[0];
    assert PlainName(head);
    NoSeparator(head);
    if |names| > 1 {
      CutAtFirst(head, Join(names[1..], "/"));
    }
  }

  lemma UpFirst(path: string)
    requires path == ".." || StartsWith(path, "../")
    ensures Components(path) != [] && Components(path)[0] == ParentDir
  {
    SinglePiece("a");
    if path != ".." {
      ComponentsBehind("..", path[3..]);
      assert path == ".." + "/" + path[3..];
    }
  }

  // ---------------------------------------------------------------- where a path leads

  /** The directory reached from `dir`, a list of names from the file-system root down. */
  function Walk(dir: seq<string>, cs: seq<Component>): seq<string> {
    if cs == [] then dir
    else
      var here := Walk(dir, cs[..|cs| - 1]);
      match cs[|cs| - 1]
      case ParentDir => if here == [] then [] else here[..|here| - 1]
      case CurDir => here
      case Normal(name) => here + [name]
  }

  /** The walk so far is at or below `root`, by at most the permitted depth. */
  predicate Within(root: seq<string>, cs: seq<Component>) {
    root <= Walk(root, cs) && |Walk(root, cs)| - |root| <= MAX_PATH_DEPTH
  }

  predicate AlwaysWithin(root: seq<string>, cs: seq<Component>) {
    forall k :: 0 <= k <= |cs| ==> Within(root, cs[..k])
  }

  /** The walk first goes wrong after `k` components. */
  predicate FirstOutside(root: seq<string>, cs: seq<Component>, k: nat) {
    k <= |cs| && !Within(root, cs[..k]) && forall j :: 0 <= j < k ==> Within(root, cs[..j])
  }

  /** The verdict on a walk: where it first goes wrong decides. */
  ghost predicate Judges(v: Verdict, root: seq<string>, cs: seq<Component>) {
    match v
    case Accepted => AlwaysWithin(root, cs)
    case Escapes => exists k: nat :: FirstOutside(root, cs, k) && !(root <= Walk(root, cs[..k]))
    case TooDeep => exists k: nat :: FirstOutside(root, cs, k) && root <= Walk(root, cs[..k])
    case _ => false
  }

  /** A path is accepted exactly when it is well formed and, followed from the workspace
      by real directory steps, it never leaves it and never goes too deep. */
  method ValidateWorkspacePath(path: string, ghost root: seq<string>) returns (v: Verdict)
    requires root != []
    ensures v == Accepted <==>
            && path != "" && ByteLen(path) <= MAX_PATH_BYTES && '\0' !in path && !StartsWith(path, "/")
            && AlwaysWithin(root, Components(path))
    ensures v == Empty <==> path == ""
    ensures v == TooLong <==> ByteLen(path) > MAX_PATH_BYTES
    ensures v == NullByte <==> ByteLen(path) <= MAX_PATH_BYTES && '\0' in path
    ensures v == Absolute <==> ByteLen(path) <= MAX_PATH_BYTES && '\0' !in path && StartsWith(path, "/")
    ensures v in {Escapes, TooDeep} ==> Judges(v, root, Components(path))
    ensures path == ".." || StartsWith(path, "../") ==> v != Accepted
    ensures forall names :: path == Join(names, "/") && names != [] && (forall n :: n in names ==> PlainName(n)) ==>
              (v == Accepted <==> |names| <= 64 && ByteLen(path) <= 512 && '\0' !in path)
  {
    if path == ".." || StartsWith(path, "../") {
      UpFirst(path);
      NoWayUp(root, Components(path));
    }
    forall names | path == Join(names, "/") && names != [] && (forall n :: n in names ==> PlainName(n))
      ensures path != "" && !StartsWith(path, "/")
      ensures AlwaysWithin(root, Components(path)) <==> |names| <= MAX_PATH_DEPTH {
      PlainPath(names);
      DownOnly(root, names);
    }

    if path == "" { return Empty; }
    if ByteLen(path) > MAX_PATH_BYTES { return TooLong; }
    if '\0' in path { return NullByte; }
    if StartsWith(path, "/") { return Absolute; }
    v := FollowComponents(Components(path), root);
  }

  method FollowComponents(cs: seq<Component>, ghost root: seq<string>) returns (v: Verdict)
    requires root != []
    ensures Judges(v, root, cs) && (v == Accepted <==> AlwaysWithin(root, cs))
  {
    var depth: int := 0;
    for n := 0 to |cs|
      invariant depth == |Walk(root, cs[..n])| - |root|
      invariant forall k :: 0 <= k <= n ==> Within(root, cs[..k])
    {
      WalkOn(root, cs, n);
      match cs[n] {
        case ParentDir =>
          depth := depth - 1;
          if depth < 0 {
            assert FirstOutside(root, cs, n + 1);
            return Escapes;
          }
        case Normal(_) =>
          depth := depth + 1;
          if depth > MAX_PATH_DEPTH {
            assert FirstOutside(root, cs, n + 1);
            return TooDeep;
          }
        case CurDir =>
      }
    }
    return Accepted;
  }

  /** One more component, from inside the root: the walk's height moves as the counter does. */
  lemma WalkOn(root: seq<string>, cs: seq<Component>, n: nat)
    requires root != [] && n < |cs| && Within(root, cs[..n])
    ensures |Walk(root, cs[..n + 1])| == |Walk(root, cs[..n])| +
            match cs[n] case ParentDir => -1 case CurDir => 0 case Normal(_) => 1
    ensures root <= Walk(root, cs[..n + 1]) <==> |Walk(root, cs[..n + 1])| >= |root|
  {
    assert cs[..n + 1][..n] == cs[..n];
  }

  lemma NoWayUp(root: seq<string>, cs: seq<Component>)
    requires root != [] && cs != [] && cs[0] == ParentDir
    ensures !AlwaysWithin(root, cs)
  {
    assert cs[..1][..0] == [] && cs[..1] == [ParentDir];
    assert Walk(root, cs[..1]) == root[..|root| - 1];
    assert !Within(root, cs[..1]);
  }

  lemma {:induction false} WalkDown(root: seq<string>, names: seq<string>)
    ensures Walk(root, Named(names)) == root + names
    decreases |names|
  {
    if names != [] {
      var n := |names| - 1;
      WalkDown(root, names[..n]);
      assert Named(names)[..n] == Named(names[..n]);
      assert names == names[..n] + [names[n]];
    } else {
      assert root + names == root;
    }
  }

  /** Plain names lead down, one level each. */
  lemma DownOnly(root: seq<string>, names: seq<string>)
    ensures AlwaysWithin(root, Named(names)) <==> |names| <= MAX_PATH_DEPTH
  {
    forall k | 0 <= k <= |names| ensures Within(root, Named(names)[..k]) <==> k <= MAX_PATH_DEPTH {
      WalkDown(root, names[..k]);
      assert Named(names)[..k] == Named(names[..k]);
    }
    assert Named(names)[..|names|] == Named(names);
  }
}
