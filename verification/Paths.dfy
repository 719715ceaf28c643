/**
 Paths (os/src/fs/inode.rs, easy-fs/src/vfs.rs): lexical normalisation keeps
 what an absolute path resolves to.
 */
module Paths {
  import opened Wrappers
  import opened BlockDevice
  import opened DirTree

  const SLASH: byte := 47

  // ----- splitting -----

  /** `split('/')`: always at least one piece. */
  function Split(path: seq<byte>): (r: seq<Name>)
    ensures |r| > 0 && forall i :: 0 <= i < |r| ==> SLASH !in r[i]
  {
    if path == [] then [[]]
    else
      var rest := Split(path[1..]);
      if path[0] == SLASH then [[]] + rest else [[path[0]] + rest[0]] + rest[1..]
  }

  /** Pieces with slashes between them. */
  function Join(parts: seq<Name>): seq<byte> {
    if parts == [] then [] else if |parts| == 1 then parts[0] else parts[0] + [SLASH] + Join(parts[1..])
  }

  /** Joining undoes splitting. */
  lemma {:induction false} JoinSplit(path: seq<byte>)
    ensures Join(Split(path)) == path
  {
    if path != [] {
      JoinSplit(path[1..]);
      var rest := Split(path[1..]);
      if path[0] == SLASH {
        assert ([[]] + rest)[1..] == rest;
      } else {
        var first := [path[0]] + rest[0];
        assert ([first] + rest[1..])[1..] == rest[1..];
      }
    }
  }

  ghost predicate Clean(parts: seq<Name>) { forall i :: 0 <= i < |parts| ==> parts[i] != [] && SLASH !in parts[i] }

  lemma {:induction false} SplitName(name: Name, rest: seq<byte>)
    requires SLASH !in name
    ensures Split(name) == [name] && Split(name + [SLASH] + rest) == [name] + Split(rest)
  {
    if name == [] {
      assert name + [SLASH] + rest == [SLASH] + rest;
      assert ([SLASH] + rest)[1..] == rest;
    } else {
      SplitName(name[1..], rest);
      assert (name + [SLASH] + rest)[1..] == name[1..] + [SLASH] + rest;
      assert [name[0]] + name[1..] == name;
      var pieces := [name[1..]] + Split(rest);
      assert pieces[0] == name[1..] && pieces[1..] == Split(rest);
    }
  }

  lemma JoinUnfolds(parts: seq<Name>)
    requires parts != []
    ensures Join(parts) == if |parts| == 1 then parts[0] else parts[0] + [SLASH] + Join(parts[1..])
  {
  }

  /** Splitting undoes joining. */
  lemma {:induction false} SplitJoin(parts: seq<Name>)
    requires parts != [] && forall i :: 0 <= i < |parts| ==> SLASH !in parts[i]
    ensures Split(Join(parts)) == parts
  {
    hide Split, Join;
    JoinUnfolds(parts);
    SplitName(parts[0], if |parts| > 1 then Join(parts[1..]) else []);
    if |parts| > 1 {
      SplitJoin(parts[1..]);
      assert [parts[0]] + parts[1..] == parts;
    } else {
      assert [parts[0]] == parts;
    }
  }

  /** `filter(|s| !s.is_empty())`. */
  function NonEmpty(parts: seq<Name>): (r: seq<Name>) {
    if parts == [] then [] else (if parts[0] == [] then [] else [parts[0]]) + NonEmpty(parts[1..])
  }

  lemma {:induction false} NonEmptyClean(parts: seq<Name>)
    requires Clean(parts)
    ensures NonEmpty(parts) == parts
  {
    if parts != [] { NonEmptyClean(parts[1..]); }
  }

  /** `trim_start_matches('/')`. */
  function TrimStart(path: seq<byte>): (r: seq<byte>)
    ensures r == [] || r[0] != SLASH
  {
    if path != [] && path[0] == SLASH then TrimStart(path[1..]) else path
  }

  lemma {:induction false} TrimKeepsParts(path: seq<byte>)
    ensures NonEmpty(Split(TrimStart(path))) == NonEmpty(Split(path))
  {
    if path != [] && path[0] == SLASH {
      TrimKeepsParts(path[1..]);
      assert ([[]] + Split(path[1..]))[1..] == Split(path[1..]);
    }
  }

  // ----- normalisation -----

  /** The stack after one component. */
  function Push(stack: seq<Name>, c: Name): seq<Name> {
    if c == [] || c == DOT then stack
    else if c == DOTDOT then (if stack == [] then [] else stack[..|stack| - 1])
    else stack + [c]
  }

  function Stack(stack: seq<Name>, parts: seq<Name>): seq<Name>
    decreases |parts|
  {
    if parts == [] then stack else Stack(Push(stack, parts[0]), parts[1..])
  }

  function Rendered(stack: seq<Name>, absolute: bool): seq<byte> {
    var result := Join(stack);
    if result == [] then [SLASH] else if absolute then [SLASH] + result else result
  }

  predicate Absolute(path: seq<byte>) { path != [] && path[0] == SLASH }

  /** `normalize_path`. */
  function Normalized(path: seq<byte>): seq<byte> { Rendered(Stack([], Split(path)), Absolute(path)) }

  /** The loops of `normalize_path`. */
  method Normalize(path: seq<byte>) returns (r: seq<byte>)
    ensures r == Normalized(path)
  {
    var components: seq<Name> := [];
    var pieces := Split(path);
    var k := 0;
    while k < |pieces|
      invariant 0 <= k <= |pieces| && Stack([], pieces) == Stack(components, pieces[k..])
    {
      var component := pieces[k];
      if component == [] || component == DOT {
      } else if component == DOTDOT {
        if components != [] { components := components[..|components| - 1]; }
      } else {
        components := components + [component];
      }
      assert pieces[k..][1..] == pieces[k + 1..];
      k := k + 1;
    }
    var result := Render(components);
    r := if result == [] then [SLASH] else if Absolute(path) then [SLASH] + result else result;
  }

  /** The second loop: components with slashes between them. */
  method Render(components: seq<Name>) returns (result: seq<byte>)
    ensures result == Join(components)
  {
    hide Join;
    result := [];
    JoinNone();
    var i := 0;
    while i < |components|
      invariant 0 <= i <= |components| && result == Join(components[..i])
    {
      if i > 0 { result := result + [SLASH]; }
      result := result + components[i];
      JoinAppend(components[..i], components[i]);
      assert components[..i + 1] == components[..i] + [components[i]];
      i := i + 1;
    }
    assert components[..i] == components;
  }

  lemma {:induction false} JoinAppend(parts: seq<Name>, c: Name)
    ensures Join(parts + [c]) == if parts == [] then c else Join(parts) + [SLASH] + c
  {
    if |parts| > 0 {
      JoinAppend(parts[1..], c);
      assert (parts + [c])[1..] == parts[1..] + [c];
    }
  }

  /** Real names: not empty, not `.`, not `..`. */
  ghost predicate Proper(stack: seq<Name>) {
    forall i :: 0 <= i < |stack| ==> !Reserved(stack[i]) && SLASH !in stack[i]
  }

  lemma PushProper(stack: seq<Name>, c: Name)
    requires Proper(stack) && SLASH !in c
    ensures Proper(Push(stack, c))
  {
  }

  lemma {:induction false} StackProper(stack: seq<Name>, parts: seq<Name>)
    requires Proper(stack) && forall i :: 0 <= i < |parts| ==> SLASH !in parts[i]
    ensures Proper(Stack(stack, parts))
    decreases |parts|
  {
    if parts != [] { StackProper(Push(stack, parts[0]), parts[1..]); }
  }

  lemma {:induction false} StackOfProper(stack: seq<Name>, parts: seq<Name>)
    requires Proper(parts)
    ensures Stack(stack, parts) == stack + parts
    decreases |parts|
  {
    if parts != [] {
      StackOfProper(stack + [parts[0]], parts[1..]);
      assert stack + [parts[0]] + parts[1..] == stack + parts;
    }
  }

  lemma {:induction false} JoinNotEmpty(parts: seq<Name>)
    requires Proper(parts) && parts != []
    ensures Join(parts) != [] && Join(parts)[0] == parts[0][0] && parts[0] != []
  {
  }

  /** The pieces of a normalised path: an empty one for a leading slash, then real names. */
  lemma NormalizedPieces(path: seq<byte>)
    ensures var stack := Stack([], Split(path));
            && Proper(stack)
            && Split(Normalized(path)) == (if stack == [] then [[], []] else if Absolute(path) then [[]] + stack
                else stack)
            && (Absolute(Normalized(path)) <==> stack == [] || Absolute(path))
  {
    hide Push;
    var stack := Stack([], Split(path));
    StackProper([], Split(path));
    if stack == [] {
      assert Split([SLASH]) == [[]] + Split([]);
      assert [SLASH][1..] == [];
    } else {
      JoinNotEmpty(stack);
      SplitJoin(stack);
      assert ([SLASH] + Join(stack))[1..] == Join(stack);
    }
  }

  /** No `.`, no `..`, no empty name: every piece is proper but the empty ones around a leading slash. */
  lemma NormalizedIsClean(path: seq<byte>)
    ensures Proper(NonEmpty(Split(Normalized(path)))) && DOT !in Split(Normalized(path))
    ensures DOTDOT !in Split(Normalized(path))
    ensures Normalized(path) == [SLASH] || NonEmpty(Split(Normalized(path))) ==
            Split(Normalized(path))[if Absolute(path) then 1 else 0..]
  {
    hide Push, Normalized, Stack;
    var stack := Stack([], Split(path));
    NormalizedPieces(path);
    NonEmptyClean(stack);
    assert Normalized(path) == Rendered(stack, Absolute(path)) by { NormalizedBy(path); }
    TwoEmpties();
    assert ([[]] + stack)[1..] == stack;
  }

  lemma NormalizedBy(path: seq<byte>)
    ensures Normalized(path) == Rendered(Stack([], Split(path)), Absolute(path))
  {
  }

  /** Normalising twice is normalising once, for every path. */
  lemma NormalizeIdempotent(path: seq<byte>)
    ensures Normalized(Normalized(path)) == Normalized(path)
  {
    hide Push, Split, Stack, Join, Normalized;
    var stack := Stack([], Split(path));
    NormalizedPieces(path);
    NormalizedBy(path);
    NormalizedBy(Normalized(path));
    StackOfProper([], stack);
    EmptyPiece(stack);
    TwoEmpties();
    assert Stack([], Split(Normalized(path))) == stack;
    if stack == [] { assert Join(stack) == [] by { JoinNone(); } }
  }

  lemma JoinNone()
    ensures Join([]) == []
  {
  }

  lemma TwoEmpties()
    ensures NonEmpty([[], []]) == [] && Stack([], [[], []]) == []
  {
    var one: seq<Name>, two: seq<Name> := [[]], [[], []];
    assert two[1..] == one && one[1..] == [];
    assert NonEmpty(one) == [] && Stack([], one) == [];
  }

  lemma EmptyPiece(parts: seq<Name>)
    ensures Stack([], [[]] + parts) == Stack([], parts)
  {
    assert ([[]] + parts)[1..] == parts;
  }

  // ----- resolving -----

  /** `resolve_component`. */
  function ResolveComponent(t: Tree, cur: u32, c: Name): Option<u32> {
    if cur !in t then None
    else if c == DOT then Some(cur)
    else if c == DOTDOT then (if t[cur].parent == 0 && cur == 0 then Some(cur) else Some(t[cur].parent))
    else Find(t[cur], c)
  }

  predicate IsDir(t: Tree, i: u32) { i in t && t[i].isDir }

  /** The loop of `lookup_path`: before each further component, the current inode must be a directory. */
  function Walk(t: Tree, cur: u32, parts: seq<Name>): Option<u32>
    decreases |parts|
  {
    if parts == [] then Some(cur)
    else if !IsDir(t, cur) then None
    else match ResolveComponent(t, cur, parts[0])
      case None => None
      case Some(next) => Walk(t, next, parts[1..])
  }

  /** `lookup_path`. */
  function Lookup(t: Tree, start: u32, path: seq<byte>): Option<u32> {
    if path == [] || path == [SLASH] || path == DOT then Some(start)
    else
      var trimmed := TrimStart(path);
      var parts := NonEmpty(Split(trimmed));
      if trimmed == [] || parts == [] then Some(start)
      else match ResolveComponent(t, start, parts[0])
        case None => None
        case Some(first) =>
          match Walk(t, first, parts[1..])
          case None => None
          case Some(i) => if trimmed[|trimmed| - 1] == SLASH && !IsDir(t, i) then None else Some(i)
  }

  /** `lookup_path` as written, with a mutable current inode. */
  method LookupPath(t: Tree, start: u32, path: seq<byte>) returns (r: Option<u32>)
    ensures r == Lookup(t, start, path)
  {
    hide ResolveComponent, Split, NonEmpty, TrimStart;
    if path == [] || path == [SLASH] || path == DOT { return Some(start); }
    var trimmed := TrimStart(path);
    if trimmed == [] { return Some(start); }
    var parts := NonEmpty(Split(trimmed));
    if parts == [] { return Some(start); }
    var first := ResolveComponent(t, start, parts[0]);
    if first.None? { return None; }
    var current := first.value;
    var k := 1;
    while k < |parts|
      invariant 1 <= k <= |parts| && Walk(t, first.value, parts[1..]) == Walk(t, current, parts[k..])
    {
      if !IsDir(t, current) { return None; }
      var next := ResolveComponent(t, current, parts[k]);
      if next.None? { return None; }
      current := next.value;
      assert parts[k..][1..] == parts[k + 1..];
      k := k + 1;
    }
    if trimmed[|trimmed| - 1] == SLASH && !IsDir(t, current) { return None; }
    r := Some(current);
  }

  /** From the root of a well-formed tree, looking up is walking; only a trailing slash asks for more. */
  lemma LookupIsWalk(t: Tree, path: seq<byte>)
    requires RootOk(t)
    ensures Lookup(t, 0, path).Some? ==> Lookup(t, 0, path) == Walk(t, 0, NonEmpty(Split(path)))
    ensures (path == [SLASH] || (path != [] && path[|path| - 1] != SLASH)) ==>
              Lookup(t, 0, path) == Walk(t, 0, NonEmpty(Split(path)))
  {
    hide Find;
    TrimKeepsParts(path);
    TwoEmpties();
    if path == [] || path == [SLASH] || path == DOT {
      SingleParts();
    } else if TrimStart(path) == [] {
      assert NonEmpty(Split([])) == [] by { SingleParts(); }
    } else {
      TrimSuffix(path);
    }
  }

  lemma SingleParts()
    ensures NonEmpty(Split([])) == [] && NonEmpty(Split([SLASH])) == [] && NonEmpty(Split(DOT)) == [DOT]
  {
    var none: seq<byte> := [];
    var one: seq<Name> := [[]];
    assert Split(none) == one && one[1..] == [];
    assert NonEmpty(one) == [];
    var slash: seq<byte> := [SLASH];
    assert slash[1..] == none;
    assert Split(slash) == [[]] + one;
    assert ([[]] + one)[1..] == one;
    SplitName(DOT, []);
    var dot: seq<Name> := [DOT];
    assert dot[1..] == [];
  }

  lemma {:induction false} TrimSuffix(path: seq<byte>)
    ensures TrimStart(path) != [] ==> path != [] && TrimStart(path)[|TrimStart(path)| - 1] == path[|path| - 1]
  {
    if path != [] && path[0] == SLASH { TrimSuffix(path[1..]); }
  }

  lemma {:induction false} WalkAppend(t: Tree, cur: u32, parts: seq<Name>, c: Name)
    ensures Walk(t, cur, parts + [c]) ==
            match Walk(t, cur, parts)
            case None => None
            case Some(i) => if IsDir(t, i) then ResolveComponent(t, i, c) else None
    decreases |parts|
  {
    hide ResolveComponent;
    if parts == [] {
      assert (parts + [c])[1..] == [];
    } else {
      assert (parts + [c])[1..] == parts[1..] + [c];
      if IsDir(t, cur) && ResolveComponent(t, cur, parts[0]).Some? {
        WalkAppend(t, ResolveComponent(t, cur, parts[0]).value, parts[1..], c);
      }
    }
  }

  /** One component: if walking the stack stands at `cur`, walking the changed stack stands where `cur` leads. */
  lemma PushWalks(t: Tree, stack: seq<Name>, cur: u32, c: Name)
    requires WellFormed(t) && Proper(stack) && Walk(t, 0, stack) == Some(cur) && IsDir(t, cur)
    requires c != [] && ResolveComponent(t, cur, c).Some?
    ensures Walk(t, 0, Push(stack, c)) == ResolveComponent(t, cur, c)
  {
    hide NamesOk, AllNamed, Rooted, Depth, IndexOf;
    if c == DOTDOT {
      if stack != [] {
        var up, last := stack[..|stack| - 1], stack[|stack| - 1];
        assert stack == up + [last];
        WalkAppend(t, 0, up, last);
        var p := Walk(t, 0, up).value;
        assert !Reserved(last);
        assert Names(t, p, IndexOf(t[p].entries, last), cur);
      }
    } else if c != DOT {
      WalkAppend(t, 0, stack, c);
    }
  }

  /** Walking through all components, `.` and `..` included, ends where walking the stack does. */
  lemma {:induction false} StackWalks(t: Tree, stack: seq<Name>, cur: u32, parts: seq<Name>)
    requires WellFormed(t) && Proper(stack) && Walk(t, 0, stack) == Some(cur)
    requires forall i :: 0 <= i < |parts| ==> SLASH !in parts[i]
    requires Walk(t, cur, NonEmpty(parts)).Some?
    ensures Walk(t, 0, Stack(stack, parts)) == Walk(t, cur, NonEmpty(parts))
    decreases |parts|
  {
    hide WellFormed, ResolveComponent, Reserved;
    if parts != [] {
      assert ([parts[0]] + NonEmpty(parts[1..]))[1..] == NonEmpty(parts[1..]);
      if parts[0] == [] {
        assert NonEmpty(parts) == NonEmpty(parts[1..]);
        assert Push(stack, parts[0]) == stack;
        StackWalks(t, stack, cur, parts[1..]);
      } else {
        PushWalks(t, stack, cur, parts[0]);
        PushProper(stack, parts[0]);
        StackWalks(t, Push(stack, parts[0]), ResolveComponent(t, cur, parts[0]).value, parts[1..]);
      }
    }
  }

  /** Normalisation preserves meaning: an absolute path that resolves from the root of a well-formed tree resolves to
      the same inode when normalised. */
  lemma NormalizePreserves(t: Tree, path: seq<byte>)
    requires WellFormed(t) && Absolute(path) && Lookup(t, 0, path).Some?
    ensures Lookup(t, 0, Normalized(path)) == Lookup(t, 0, path)
  {
    hide WellFormed, Walk, Lookup, Push, Split, NonEmpty, Stack, Normalized;
    assert RootOk(t) by { WellFormedHasRoot(t); }
    var stack := Stack([], Split(path));
    LookupIsWalk(t, path);
    StackProper([], Split(path));
    assert Walk(t, 0, []) == Some(0) by { WalkNone(t); }
    StackWalks(t, [], 0, Split(path));
    NormalizedPieces(path);
    NormalizedEnd(path);
    NonEmptyClean(stack);
    TwoEmpties();
    NonEmptySkips(stack);
    LookupIsWalk(t, Normalized(path));
  }

  lemma WellFormedHasRoot(t: Tree)
    requires WellFormed(t)
    ensures RootOk(t)
  {
  }

  lemma WalkNone(t: Tree)
    ensures Walk(t, 0, []) == Some(0)
  {
  }

  lemma NonEmptySkips(parts: seq<Name>)
    ensures NonEmpty([[]] + parts) == NonEmpty(parts)
  {
    assert ([[]] + parts)[1..] == parts;
  }

  /** A normalised path is `/` or does not end in a slash. */
  lemma NormalizedEnd(path: seq<byte>)
    ensures Normalized(path) != [] && (Normalized(path) == [SLASH] || Normalized(path)[|Normalized(path)| - 1] != SLASH)
  {
    hide Push, Split;
    var stack := Stack([], Split(path));
    StackProper([], Split(path));
    if stack != [] { JoinEnd(stack); }
  }

  lemma {:induction false} JoinEnd(parts: seq<Name>)
    requires Proper(parts) && parts != []
    ensures Join(parts) != [] && Join(parts)[|Join(parts)| - 1] != SLASH
  {
    if |parts| > 1 { JoinEnd(parts[1..]); }
  }

  // ----- paths that do not resolve -----

  /** One component from where the walk stands, if it stands anywhere. */
  function Next(t: Tree, at: Option<u32>, c: Name): Option<u32> {
    if at.Some? && IsDir(t, at.value) then ResolveComponent(t, at.value, c) else None
  }

  /** The walk over all pieces; empty ones do not count. */
  function WalkAll(t: Tree, at: Option<u32>, parts: seq<Name>): Option<u32>
    decreases |parts|
  {
    if parts == [] then at else WalkAll(t, if parts[0] == [] then at else Next(t, at, parts[0]), parts[1..])
  }

  /** Before each `.` and `..` the walk stands at a directory. */
  predicate Grounded(t: Tree, at: Option<u32>, parts: seq<Name>)
    decreases |parts|
  {
    if parts == [] then true
    else if parts[0] == [] then Grounded(t, at, parts[1..])
    else
      && (parts[0] == DOT || parts[0] == DOTDOT ==> at.Some? && IsDir(t, at.value))
      && Grounded(t, Next(t, at, parts[0]), parts[1..])
  }

  predicate Trailing(path: seq<byte>) { path != [] && path[|path| - 1] == SLASH }

  /** A trailing slash asks for a directory. */
  function Checked(t: Tree, at: Option<u32>, trailing: bool): Option<u32> {
    if at.Some? && trailing && !IsDir(t, at.value) then None else at
  }

  lemma {:induction false} WalkNowhere(t: Tree, parts: seq<Name>)
    ensures WalkAll(t, None, parts) == None
    decreases |parts|
  {
    if parts != [] { WalkNowhere(t, parts[1..]); }
  }

  lemma {:induction false} WalkAllIsWalk(t: Tree, cur: u32, parts: seq<Name>)
    ensures WalkAll(t, Some(cur), parts) == Walk(t, cur, NonEmpty(parts))
    decreases |parts|
  {
    hide ResolveComponent;
    if parts != [] {
      var rest := NonEmpty(parts[1..]);
      if parts[0] == [] {
        assert NonEmpty(parts) == rest;
        WalkAllIsWalk(t, cur, parts[1..]);
      } else {
        assert NonEmpty(parts) == [parts[0]] + rest && ([parts[0]] + rest)[1..] == rest;
        var next := Next(t, Some(cur), parts[0]);
        if next.Some? { WalkAllIsWalk(t, next.value, parts[1..]); } else { WalkNowhere(t, parts[1..]); }
      }
    }
  }

  /** What resolves is grounded. */
  lemma {:induction false} ResolvedIsGrounded(t: Tree, at: Option<u32>, parts: seq<Name>)
    requires WalkAll(t, at, parts).Some?
    ensures Grounded(t, at, parts)
    decreases |parts|
  {
    hide ResolveComponent;
    if parts != [] {
      var next := if parts[0] == [] then at else Next(t, at, parts[0]);
      if next == None { WalkNowhere(t, parts[1..]); }
      ResolvedIsGrounded(t, next, parts[1..]);
    }
  }

  /** Walking a grounded list, resolving or not, ends where walking the stack ends. */
  lemma {:induction false} GroundedWalks(t: Tree, stack: seq<Name>, at: Option<u32>, parts: seq<Name>)
    requires WellFormed(t) && Proper(stack) && Walk(t, 0, stack) == at && Grounded(t, at, parts)
    requires forall i :: 0 <= i < |parts| ==> SLASH !in parts[i]
    ensures Walk(t, 0, Stack(stack, parts)) == WalkAll(t, at, parts)
    decreases |parts|
  {
    hide WellFormed, ResolveComponent, Reserved, Walk;
    if parts != [] {
      var c := parts[0];
      if c == [] {
        GroundedWalks(t, stack, at, parts[1..]);
      } else {
        PushProper(stack, c);
        assert Walk(t, 0, Push(stack, c)) == Next(t, at, c) by {
          if c == DOT || c == DOTDOT {
            DotsResolve(t, at.value, c);
            PushWalks(t, stack, at.value, c);
          } else {
            WalkAppend(t, 0, stack, c);
          }
        }
        GroundedWalks(t, Push(stack, c), Next(t, at, c), parts[1..]);
      }
    }
  }

  lemma DotsResolve(t: Tree, cur: u32, c: Name)
    requires IsDir(t, cur) && (c == DOT || c == DOTDOT)
    ensures ResolveComponent(t, cur, c).Some?
  {
  }

  /** `lookup_path` from any directory, for every path, absolute or not: it walks all pieces from there. */
  lemma LookupExact(t: Tree, start: u32, path: seq<byte>)
    requires IsDir(t, start)
    ensures Lookup(t, start, path) == Checked(t, WalkAll(t, Some(start), Split(path)), Trailing(path))
  {
    hide Find, Split, NonEmpty;
    WalkAllIsWalk(t, start, Split(path));
    TrimKeepsParts(path);
    SingleParts();
    TrimSuffix(path);
  }

  /** The exact condition: normalising keeps the answer, resolving or not, iff the normal form does not resolve, or the
      walk stands at a directory before each `.`, each `..` and a trailing slash. */
  lemma NormalizeExact(t: Tree, path: seq<byte>)
    requires WellFormed(t) && Absolute(path)
    ensures Lookup(t, 0, Normalized(path)) == Lookup(t, 0, path) <==>
              || Lookup(t, 0, Normalized(path)).None?
              || (Grounded(t, Some(0), Split(path)) &&
                  Checked(t, WalkAll(t, Some(0), Split(path)), Trailing(path)) == WalkAll(t, Some(0), Split(path)))
  {
    hide WellFormed, Walk, Lookup, Push, Split, NonEmpty, Stack, Normalized, WalkAll, Grounded;
    WellFormedHasRoot(t);
    var at := WalkAll(t, Some(0), Split(path));
    LookupExact(t, 0, path);
    if Lookup(t, 0, path).Some? {
      NormalizePreserves(t, path);
      ResolvedIsGrounded(t, Some(0), Split(path));
    }
    if Grounded(t, Some(0), Split(path)) {
      WalkNone(t);
      StackSplit(path);
      GroundedWalks(t, [], Some(0), Split(path));
      NormalizedWalk(t, path);
    }
  }

  lemma StackSplit(path: seq<byte>)
    ensures Proper([]) && forall i :: 0 <= i < |Split(path)| ==> SLASH !in Split(path)[i]
  {
  }

  /** The normal form of an absolute path resolves to where its stack leads. */
  lemma NormalizedWalk(t: Tree, path: seq<byte>)
    requires RootOk(t) && Absolute(path)
    ensures Lookup(t, 0, Normalized(path)) == Walk(t, 0, Stack([], Split(path)))
  {
    hide Walk, Lookup, Push, Split, NonEmpty, Stack, Normalized;
    var stack := Stack([], Split(path));
    NormalizedPieces(path);
    NormalizedEnd(path);
    NonEmptyClean(stack);
    TwoEmpties();
    NonEmptySkips(stack);
    LookupIsWalk(t, Normalized(path));
  }

  predicate Plain(parts: seq<Name>) { DOT !in parts && DOTDOT !in parts }

  /** In particular, an absolute path without `.`, `..` and trailing slash gets the same answer in every well-formed
      tree. */
  lemma NormalizePlain(t: Tree, path: seq<byte>)
    requires WellFormed(t) && Absolute(path) && Plain(Split(path)) && !Trailing(path)
    ensures Lookup(t, 0, Normalized(path)) == Lookup(t, 0, path)
  {
    hide WellFormed, Lookup, Split, Normalized, WalkAll;
    PlainGrounded(t, Some(0), Split(path));
    NormalizeExact(t, path);
  }

  lemma {:induction false} PlainGrounded(t: Tree, at: Option<u32>, parts: seq<Name>)
    requires Plain(parts)
    ensures Grounded(t, at, parts)
    decreases |parts|
  {
    hide Next;
    if parts != [] { PlainGrounded(t, if parts[0] == [] then at else Next(t, at, parts[0]), parts[1..]); }
  }

  /** Without that the answer can change: `/a/..` does not resolve in an empty root, its normal form `/` does. */
  lemma NormalizeRepairs()
    ensures Absolute([SLASH, 97, SLASH, 46, 46])
    ensures Lookup(Empty(), 0, [SLASH, 97, SLASH, 46, 46]) == None
    ensures Lookup(Empty(), 0, Normalized([SLASH, 97, SLASH, 46, 46])) == Some(0)
  {
    var path: seq<byte>, a: Name := [SLASH, 97, SLASH, 46, 46], [97];
    var rest: seq<Name> := [a, DOTDOT];
    assert path == [SLASH] + (a + [SLASH] + DOTDOT) && path[1..] == a + [SLASH] + DOTDOT;
    SplitName(a, DOTDOT);
    SplitName(DOTDOT, []);
    assert [a] + [DOTDOT] == rest;
    assert Split(path) == [[]] + rest;
    EmptyPiece(rest);
    StackUpDown(a);
    assert Normalized(path) == [SLASH];
    LookupExact(Empty(), 0, path);
    WalkUpDown(a, rest);
  }

  lemma StackUpDown(a: Name)
    requires !Reserved(a)
    ensures Stack([], [a, DOTDOT]) == []
  {
    var parts: seq<Name> := [a, DOTDOT];
    assert parts[1..] == [DOTDOT] && parts[1..][1..] == [];
    assert Stack([a], [DOTDOT]) == [];
  }

  lemma WalkUpDown(a: Name, rest: seq<Name>)
    requires !Reserved(a) && rest == [a, DOTDOT]
    ensures WalkAll(Empty(), Some(0), [[]] + rest) == None
  {
    assert ([[]] + rest)[1..] == rest;
    assert Next(Empty(), Some(0), a) == None;
    WalkNowhere(Empty(), rest[1..]);
  }
}
