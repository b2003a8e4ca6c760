/**
 * Go's `path` package as far as `getDataset` and `getPath` use it:
 * path.Join of two elements and the purely lexical path.Clean it applies to
 * the joined text. Clean follows the package's documented rules: runs of
 * slashes become one slash, "." elements disappear, an inner ".." removes the
 * element before it, ".." elements at the start of a rooted path disappear,
 * and the empty result is ".".
 */
module GoPath {
  import opened GoStrings

  predicate IsSlash(c: char) {
    c == '/'
  }

  /** The pieces of `s` between slashes (strings.Split on "/"); "a//b" gives "a", "", "b". */
  function SplitSlash(s: string): (parts: seq<string>)
    ensures |parts| >= 1
    ensures forall i :: 0 <= i < |parts| ==> NoneIn(parts[i], IsSlash)
    decreases |s|
  {
    var w := LeadingRun(s, IsSlash);
    if |w| == |s| then [s] else [w] + SplitSlash(s[|w| + 1..])
  }

  /** Splitting at a slash splits the pieces: SplitSlash(a + "/" + b) = SplitSlash(a) + SplitSlash(b). */
  lemma {:induction false} SplitSlashAppend(a: string, b: string)
    ensures SplitSlash(a + "/" + b) == SplitSlash(a) + SplitSlash(b)
    decreases |a|
  {
    var s := a + "/" + b;
    assert s == a + ['/'] + b;
    LeadingRunStopsAt(a, '/', b, IsSlash);
    var w := LeadingRun(a, IsSlash);
    if |w| == |a| {
      assert w == a;
      assert SplitSlash(a) == [a];
      assert s[|w| + 1..] == b;
      assert SplitSlash(s) == [w] + SplitSlash(b);
    } else {
      assert s[|w| + 1..] == a[|w| + 1..] + "/" + b;
      SplitSlashAppend(a[|w| + 1..], b);
    }
  }

  /** A single path element splits into itself. */
  lemma SplitSlashElement(e: string)
    requires NoneIn(e, IsSlash)
    ensures SplitSlash(e) == [e]
  {
    LeadingRunOfWord(e, [], IsSlash);
    assert e + [] == e;
  }

  /** One element of the lexical walk over the path: the stack of kept elements after element `e`. */
  function Step(rooted: bool, stack: seq<string>, e: string): seq<string> {
    if e == "" || e == "." then stack
    else if e == ".." then
      if |stack| > 0 && stack[|stack| - 1] != ".." then stack[..|stack| - 1]
      else if rooted then stack
      else stack + [".."]
    else stack + [e]
  }

  /** The whole walk: the elements to keep, in order, after processing `elems` from `stack`. */
  function Resolve(rooted: bool, stack: seq<string>, elems: seq<string>): seq<string>
    decreases |elems|
  {
    if elems == [] then stack else Resolve(rooted, Step(rooted, stack, elems[0]), elems[1..])
  }

  lemma {:induction false} ResolveAppend(rooted: bool, stack: seq<string>, a: seq<string>, b: seq<string>)
    ensures Resolve(rooted, stack, a + b) == Resolve(rooted, Resolve(rooted, stack, a), b)
    decreases |a|
  {
    if a == [] {
      assert a + b == b;
    } else {
      assert (a + b)[0] == a[0] && (a + b)[1..] == a[1..] + b;
      ResolveAppend(rooted, Step(rooted, stack, a[0]), a[1..], b);
    }
  }

  /** The kept elements written out with single slashes between them (strings.Join with "/"). */
  function JoinSlash(elems: seq<string>): string
    decreases |elems|
  {
    if |elems| == 0 then ""
    else if |elems| == 1 then elems[0]
    else JoinSlash(elems[..|elems| - 1]) + "/" + elems[|elems| - 1]
  }

  /** The body of the cleaned path: its kept elements joined by slashes. */
  function CleanBody(rooted: bool, p: string): string {
    JoinSlash(Resolve(rooted, [], SplitSlash(p)))
  }

  /** path.Clean: the shortest lexically equivalent path; never empty. */
  function Clean(p: string): (r: string)
    ensures r != []
    ensures p != [] && p[0] == '/' ==> r[0] == '/'
  {
    if p == [] then "."
    else
      var rooted := p[0] == '/';
      var body := CleanBody(rooted, p);
      if rooted then "/" + body else if body == [] then "." else body
  }

  /**
   * path.Join of two elements: the non-empty ones joined by a slash and the
   * result cleaned; "" when both are empty.
   */
  function Join(a: string, b: string): (r: string)
    ensures r == "" <==> a == "" && b == ""
    ensures (a != "" && a[0] == '/') || (a == "" && b != "" && b[0] == '/') ==> r != "" && r[0] == '/'
  {
    if |a| + |b| == 0 then ""
    else if a == "" then Clean(b)
    else Clean(a + "/" + b)
  }

  /** One path element: non-empty, slash-free, and neither "." nor "..". */
  predicate IsElement(id: string) {
    id != "" && NoneIn(id, IsSlash) && id != "." && id != ".."
  }

  /** A clean path that stands for a directory other than "/" and ".", so a child is written below it. */
  predicate IsCleanBase(base: string) {
    Clean(base) == base && base != "/" && base != "."
  }

  lemma JoinSlashSnoc(elems: seq<string>, x: string)
    requires elems != []
    ensures JoinSlash(elems + [x]) == JoinSlash(elems) + "/" + x
  {
    assert (elems + [x])[..|elems|] == elems;
  }

  /** Walking a normal element pushes it onto the stack. */
  lemma ResolveElement(rooted: bool, stack: seq<string>, id: string)
    requires IsElement(id)
    ensures Resolve(rooted, stack, [id]) == stack + [id]
  {
    assert [id][1..] == [];
  }

  /** What Clean is once the text is known to be non-empty. */
  lemma CleanNonEmpty(p: string)
    requires p != []
    ensures p[0] == '/' ==> Clean(p) == "/" + CleanBody(true, p)
    ensures p[0] != '/' ==> Clean(p) == if CleanBody(false, p) == [] then "." else CleanBody(false, p)
  {
  }

  /** Under a clean base of more than one character the walk keeps at least one element, and the base is its rendering. */
  lemma CleanBaseStack(base: string)
    requires IsCleanBase(base)
    ensures base != []
    ensures var rooted := base[0] == '/';
      var stack := Resolve(rooted, [], SplitSlash(base));
      stack != [] && base == (if rooted then "/" else "") + JoinSlash(stack)
  {
    CleanNonEmpty(base);
  }

  /** The walk over `base + "/" + id` is the walk over `base` with `id` pushed. */
  lemma ResolveAppendElement(rooted: bool, base: string, id: string)
    requires IsElement(id)
    ensures Resolve(rooted, [], SplitSlash(base + "/" + id))
         == Resolve(rooted, [], SplitSlash(base)) + [id]
  {
    SplitSlashAppend(base, id);
    SplitSlashElement(id);
    ResolveAppend(rooted, [], SplitSlash(base), [id]);
    ResolveElement(rooted, Resolve(rooted, [], SplitSlash(base)), id);
  }

  /** Appending one element to a clean base takes no cleaning: Clean(base + "/" + id) == base + "/" + id. */
  lemma CleanAppendElement(base: string, id: string)
    requires IsCleanBase(base) && IsElement(id)
    ensures Clean(base + "/" + id) == base + "/" + id
  {
    CleanBaseStack(base);
    var p := base + "/" + id;
    var rooted := base[0] == '/';
    assert p[0] == base[0];
    var stack := Resolve(rooted, [], SplitSlash(base));
    ResolveAppendElement(rooted, base, id);
    JoinSlashSnoc(stack, id);
    assert CleanBody(rooted, p) == JoinSlash(stack) + "/" + id;
    CleanNonEmpty(p);
  }

  /** An element joined below the root directory is the rooted element. */
  lemma CleanRootElement(id: string)
    requires IsElement(id)
    ensures Clean("/" + "/" + id) == "/" + id
  {
    var p := "/" + "/" + id;
    assert NoneIn("", IsSlash);
    SplitSlashElement("");
    SplitSlashAppend("", "");
    assert "" + "/" + "" == "/";
    SplitSlashAppend("/", id);
    SplitSlashElement(id);
    assert SplitSlash(p) == ["", "", id];
    assert ["", "", id][1..] == ["", id] && ["", id][1..] == [id];
    ResolveElement(true, [], id);
    assert Resolve(true, [], ["", "", id]) == [id];
  }

  /**
   * How path.Join places one element under a base: directly below a clean
   * base, directly below "/", and as the bare element when the base is empty.
   */
  lemma JoinElement(base: string, id: string)
    ensures IsElement(id) && IsCleanBase(base) ==> Join(base, id) == base + "/" + id
    ensures IsElement(id) && base == "/" ==> Join(base, id) == "/" + id
    ensures IsElement(id) && base == "" ==> Join(base, id) == id
  {
    if IsElement(id) {
      if IsCleanBase(base) {
        CleanAppendElement(base, id);
      } else if base == "/" {
        CleanRootElement(id);
      } else if base == "" {
        CleanElement(id);
      }
    }
  }

  /** A single element is already clean. */
  lemma CleanElement(id: string)
    requires IsElement(id)
    ensures Clean(id) == id
  {
    SplitSlashElement(id);
    assert id[0] != '/' by { assert !IsSlash(id[0]); }
    assert Resolve(false, [], [id]) == [id];
  }

  /** Descending into an element and then applying ".." returns to the cleaned parent. */
  lemma CleanChildDotDot(parent: string, name: string)
    requires parent != [] && IsElement(name)
    ensures Clean(parent + "/" + name + "/" + "..") == Clean(parent)
  {
    var child := parent + "/" + name;
    var p := child + "/" + "..";
    var rooted := parent[0] == '/';
    assert p[0] == parent[0];
    SplitSlashAppend(parent, name);
    SplitSlashElement(name);
    SplitSlashAppend(child, "..");
    SplitSlashElement("..");
    var stack := Resolve(rooted, [], SplitSlash(parent));
    assert SplitSlash(p) == SplitSlash(parent) + [name, ".."];
    ResolveAppend(rooted, [], SplitSlash(parent), [name, ".."]);
    assert Resolve(rooted, stack, [name, ".."]) == stack by {
      assert [name, ".."][1..] == [".."];
      assert [".."][1..] == [];
      assert Step(rooted, stack, name) == stack + [name];
      assert (stack + [name])[..|stack + [name]| - 1] == stack;
      assert Step(rooted, stack + [name], "..") == stack;
    }
    assert CleanBody(rooted, p) == CleanBody(rooted, parent);
  }

  /**
   * The shape of every stack the walk produces: no empty, "." or slash-holding
   * element, ".." only in a leading run, and no ".." at all under a rooted path.
   */
  ghost predicate Canonical(rooted: bool, stack: seq<string>) {
    (forall i :: 0 <= i < |stack| ==> stack[i] != "" && stack[i] != "." && NoneIn(stack[i], IsSlash))
    && (forall i, j :: 0 <= i < j < |stack| && stack[j] == ".." ==> stack[i] == "..")
    && (rooted ==> forall i :: 0 <= i < |stack| ==> stack[i] != "..")
  }

  lemma StepCanonical(rooted: bool, stack: seq<string>, e: string)
    requires Canonical(rooted, stack) && NoneIn(e, IsSlash)
    ensures Canonical(rooted, Step(rooted, stack, e))
  {
  }

  lemma {:induction false} ResolveCanonical(rooted: bool, stack: seq<string>, elems: seq<string>)
    requires Canonical(rooted, stack)
    requires forall i :: 0 <= i < |elems| ==> NoneIn(elems[i], IsSlash)
    ensures Canonical(rooted, Resolve(rooted, stack, elems))
    decreases |elems|
  {
    if elems != [] {
      StepCanonical(rooted, stack, elems[0]);
      ResolveCanonical(rooted, Step(rooted, stack, elems[0]), elems[1..]);
    }
  }

  /** Walking a canonical stack from scratch rebuilds it unchanged. */
  lemma {:induction false} ResolveFixed(rooted: bool, stack: seq<string>)
    requires Canonical(rooted, stack)
    ensures Resolve(rooted, [], stack) == stack
    decreases |stack|
  {
    if stack != [] {
      var init := stack[..|stack| - 1];
      var last := stack[|stack| - 1];
      assert stack == init + [last];
      assert Canonical(rooted, init);
      ResolveFixed(rooted, init);
      ResolveAppend(rooted, [], init, [last]);
      assert [last][1..] == [];
      assert Resolve(rooted, init, [last]) == Step(rooted, init, last);
      if last == ".." {
        assert !rooted;
        assert init == [] || init[|init| - 1] == "..";
      }
    }
  }

  /** The rendering starts with the first element. */
  lemma {:induction false} JoinSlashStart(elems: seq<string>)
    requires elems != []
    ensures elems[0] <= JoinSlash(elems)
    decreases |elems|
  {
    if |elems| > 1 {
      var init := elems[..|elems| - 1];
      JoinSlashStart(init);
      assert init[0] == elems[0];
    }
  }

  /** Splitting the rendering of slash-free elements gives the elements back. */
  lemma {:induction false} SplitJoinSlash(elems: seq<string>)
    requires elems != []
    requires forall i :: 0 <= i < |elems| ==> NoneIn(elems[i], IsSlash)
    ensures SplitSlash(JoinSlash(elems)) == elems
    decreases |elems|
  {
    if |elems| == 1 {
      SplitSlashElement(elems[0]);
    } else {
      var init := elems[..|elems| - 1];
      var last := elems[|elems| - 1];
      SplitJoinSlash(init);
      SplitSlashAppend(JoinSlash(init), last);
      SplitSlashElement(last);
      assert init + [last] == elems;
    }
  }

  lemma CleanDot()
    ensures Clean(".") == "."
  {
    SplitSlashElement(".");
    assert ["."][1..] == [];
  }

  lemma CleanSlash()
    ensures Clean("/") == "/"
  {
    assert "/" == "" + "/" + "";
    SplitSlashAppend("", "");
    SplitSlashElement("");
    assert SplitSlash("/") == ["", ""];
    assert ["", ""][1..] == [""] && [""][1..] == [];
    assert Resolve(true, [], ["", ""]) == [];
  }

  /** A rooted rendering of a non-empty canonical stack is clean. */
  lemma CleanRootedStack(stack: seq<string>)
    requires stack != [] && Canonical(true, stack)
    ensures Clean("/" + JoinSlash(stack)) == "/" + JoinSlash(stack)
  {
    var body := JoinSlash(stack);
    var c := "/" + body;
    assert c == "" + "/" + body;
    SplitSlashAppend("", body);
    SplitSlashElement("");
    SplitJoinSlash(stack);
    assert SplitSlash(c) == [""] + stack;
    assert ([""] + stack)[0] == "" && ([""] + stack)[1..] == stack;
    ResolveFixed(true, stack);
    assert Resolve(true, [], [""] + stack) == stack;
    CleanNonEmpty(c);
  }

  /** A relative rendering of a non-empty canonical stack is clean. */
  lemma CleanRelativeStack(stack: seq<string>)
    requires stack != [] && Canonical(false, stack)
    ensures Clean(JoinSlash(stack)) == JoinSlash(stack)
  {
    var body := JoinSlash(stack);
    JoinSlashStart(stack);
    assert body[0] == stack[0][0];
    assert body[0] != '/' by { assert !IsSlash(stack[0][0]); }
    SplitJoinSlash(stack);
    ResolveFixed(false, stack);
    CleanNonEmpty(body);
  }

  /** Cleaning is idempotent: a cleaned path is clean. */
  lemma CleanIdempotent(p: string)
    ensures Clean(Clean(p)) == Clean(p)
  {
    if p == [] {
      CleanDot();
    } else {
      var rooted := p[0] == '/';
      var stack := Resolve(rooted, [], SplitSlash(p));
      ResolveCanonical(rooted, [], SplitSlash(p));
      CleanNonEmpty(p);
      if stack == [] {
        if rooted { CleanSlash(); } else { CleanDot(); }
      } else if rooted {
        CleanRootedStack(stack);
      } else {
        CleanRelativeStack(stack);
      }
    }
  }

  /** path.Join always yields a clean path (or "" when both parts are empty). */
  lemma JoinIsClean(a: string, b: string)
    ensures Join(a, b) == "" || Clean(Join(a, b)) == Join(a, b)
  {
    if |a| + |b| != 0 {
      if a == "" { CleanIdempotent(b); } else { CleanIdempotent(a + "/" + b); }
    }
  }
}
