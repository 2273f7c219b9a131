/**
 Rooted slash-separated paths as strings, as path/filepath treats them: splitting, and the
 Clean that resolves "." and "..". Supports paths.go.
 */
module PathNames {

  predicate SlashFree(s: string) {
    '/' !in s
  }

  /** A component Clean leaves alone. */
  predicate Name(c: string) {
    c != "" && c != "." && c != ".." && SlashFree(c)
  }

  predicate Names(cs: seq<string>) {
    forall i :: 0 <= i < |cs| ==> Name(cs[i])
  }

  /** Each component preceded by a slash. */
  function Tail(cs: seq<string>): string {
    if cs == [] then "" else "/" + cs[0] + Tail(cs[1..])
  }

  /** The string of a clean rooted path. */
  function Render(cs: seq<string>): string {
    if cs == [] then "/" else Tail(cs)
  }

  function Split(s: string): (parts: seq<string>)
    ensures |parts| > 0
  {
    if s == "" then [""]
    else
      var parts := Split(s[1..]);
      if s[0] == '/' then [""] + parts else [[s[0]] + parts[0]] + parts[1..]
  }

  /** Clean's stack: empty and "." components vanish, ".." drops the one before it, and nothing is above the root. */
  function Resolve(stack: seq<string>, cs: seq<string>): seq<string>
    decreases |cs|
  {
    if cs == [] then stack
    else if cs[0] == "" || cs[0] == "." then Resolve(stack, cs[1..])
    else if cs[0] == ".." then Resolve(if stack == [] then [] else stack[..|stack| - 1], cs[1..])
    else Resolve(stack + [cs[0]], cs[1..])
  }

  /** filepath.Clean of a path that starts with a slash. */
  function Clean(path: string): string {
    Render(Resolve([], Split(path)))
  }

  predicate HasPrefix(s: string, prefix: string) {
    prefix <= s
  }

  // --- splitting and rendering undo each other ----------------------------------------

  lemma {:induction false} SplitFirst(c: string, s: string)
    requires SlashFree(c)
    ensures Split(c + "/" + s) == [c] + Split(s)
    ensures Split(c) == [c]
  {
    if c == "" {
      assert c + "/" + s == "/" + s;
      assert ("/" + s)[1..] == s;
    } else {
      SplitFirst(c[1..], s);
      assert (c + "/" + s)[1..] == c[1..] + "/" + s;
      assert [c[0]] + c[1..] == c;
    }
  }

  lemma {:induction false} SplitTail(c: string, cs: seq<string>)
    requires SlashFree(c) && forall d :: d in cs ==> SlashFree(d)
    ensures Split(c + Tail(cs)) == [c] + cs
    decreases |cs|
  {
    if cs == [] {
      SplitFirst(c, "");
      assert c + Tail(cs) == c;
    } else {
      SplitTail(cs[0], cs[1..]);
      SplitFirst(c, cs[0] + Tail(cs[1..]));
      assert c + Tail(cs) == c + "/" + (cs[0] + Tail(cs[1..]));
      assert [cs[0]] + cs[1..] == cs;
    }
  }

  lemma SplitSlashes(cs: seq<string>)
    requires forall c :: c in cs ==> SlashFree(c)
    ensures Split(Tail(cs)) == [""] + cs
  {
    SplitTail("", cs);
    assert "" + Tail(cs) == Tail(cs);
  }

  lemma SplitRender(cs: seq<string>)
    requires Names(cs) && cs != []
    ensures Split(Render(cs)) == [""] + cs
  {
    SplitTail("", cs);
    assert "" + Tail(cs) == Tail(cs);
  }

  /** Different clean paths are different strings. */
  lemma RenderInjective(cs: seq<string>, ds: seq<string>)
    requires Names(cs) && Names(ds)
    requires Render(cs) == Render(ds)
    ensures cs == ds
  {
    if cs != [] && ds != [] {
      SplitRender(cs);
      SplitRender(ds);
      assert cs == Split(Render(cs))[1..] == ds;
    } else if cs != [] {
      SplitRender(cs);
      RootSplit();
    } else if ds != [] {
      SplitRender(ds);
      RootSplit();
    }
  }

  lemma RootSplit()
    ensures Split("/") == ["", ""]
  {
    assert "/"[1..] == "";
  }

  lemma {:induction false} TailConcat(cs: seq<string>, ds: seq<string>)
    ensures Tail(cs + ds) == Tail(cs) + Tail(ds)
  {
    if cs == [] {
      assert cs + ds == ds;
    } else {
      TailConcat(cs[1..], ds);
      assert (cs + ds)[1..] == cs[1..] + ds && (cs + ds)[0] == cs[0];
      assert Tail(cs + ds) == "/" + cs[0] + Tail(cs[1..] + ds);
    }
  }

  // --- cleaning -------------------------------------------------------------------------

  lemma {:induction false} ResolveNames(stack: seq<string>, cs: seq<string>)
    requires Names(stack) && forall c :: c in cs ==> SlashFree(c)
    ensures Names(Resolve(stack, cs))
    decreases |cs|
  {
    if cs != [] {
      assert cs[0] in cs;
      var next := if cs[0] == "" || cs[0] == "." then stack
                  else if cs[0] == ".." then (if stack == [] then [] else stack[..|stack| - 1])
                  else stack + [cs[0]];
      ResolveNames(next, cs[1..]);
    }
  }

  lemma {:induction false} ResolveConcat(stack: seq<string>, cs: seq<string>, ds: seq<string>)
    ensures Resolve(stack, cs + ds) == Resolve(Resolve(stack, cs), ds)
    decreases |cs|
  {
    if cs == [] {
      assert cs + ds == ds;
    } else {
      var next := if cs[0] == "" || cs[0] == "." then stack
                  else if cs[0] == ".." then (if stack == [] then [] else stack[..|stack| - 1])
                  else stack + [cs[0]];
      assert (cs + ds)[1..] == cs[1..] + ds;
      ResolveConcat(next, cs[1..], ds);
    }
  }

  /** A clean component list resolves to itself. */
  lemma {:induction false} ResolveClean(stack: seq<string>, cs: seq<string>)
    requires Names(cs)
    ensures Resolve(stack, cs) == stack + cs
    decreases |cs|
  {
    if cs != [] {
      assert Name(cs[0]);
      ResolveClean(stack + [cs[0]], cs[1..]);
      assert stack + [cs[0]] + cs[1..] == stack + cs;
    } else {
      assert stack + cs == stack;
    }
  }

  lemma CleanTail(cs: seq<string>)
    requires forall c :: c in cs ==> SlashFree(c)
    ensures Clean(Tail(cs)) == Render(Resolve([], cs))
  {
    SplitSlashes(cs);
    assert ([""] + cs)[1..] == cs;
  }

  /** Cleaning a clean base with components appended resolves those components on top of it. */
  lemma CleanJoin(base: seq<string>, cs: seq<string>)
    requires Names(base) && forall c :: c in cs ==> SlashFree(c)
    ensures Clean(Render(base) + Tail(cs)) == Render(Resolve(base, cs))
    ensures Names(Resolve(base, cs))
  {
    ResolveNames(base, cs);
    var b := if base == [] then [""] else base;
    assert Tail(b) == Render(base) && Resolve([], b) == base by {
      assert [""][1..] == [];
      ResolveClean([], base);
    }
    TailConcat(b, cs);
    forall c | c in b + cs ensures SlashFree(c) {
      if c in b {
        var i :| 0 <= i < |b| && b[i] == c;
      }
    }
    CleanTail(b + cs);
    ResolveConcat([], b, cs);
  }

  lemma Assoc(a: string, b: string, c: string)
    ensures a + b + c == a + (b + c)
  {
  }

  lemma BelowRoot(full: seq<string>)
    requires Names(full)
    ensures !HasPrefix(Render(full), "//")
  {
    assert full != [] ==> Name(full[0]) && Render(full)[1] == full[0][0];
  }

  lemma BelowIsPrefix(base: seq<string>, full: seq<string>)
    requires base != [] && base < full
    ensures Render(full) == Render(base) + "/" + (full[|base|] + Tail(full[|base| + 1..]))
  {
    var rest := full[|base|..];
    assert full == base + rest && rest[0] == full[|base|] && rest[1..] == full[|base| + 1..];
    TailConcat(base, rest);
    Assoc("/", rest[0], Tail(rest[1..]));
    Assoc(Tail(base), "/", rest[0] + Tail(rest[1..]));
  }

  /**
   The string test for being below a directory says the components are below it, unless that directory is the root.
   */
  lemma BelowByPrefix(base: seq<string>, full: seq<string>)
    requires Names(base) && Names(full)
    ensures HasPrefix(Render(full), Render(base) + "/") <==> base != [] && base < full
  {
    if base == [] {
      BelowRoot(full);
      assert Render(base) + "/" == "//";
    } else {
      if base < full {
        BelowIsPrefix(base, full);
      }
      if HasPrefix(Render(full), Render(base) + "/") {
        PrefixSplits(base, full, Render(full)[|Render(base)| + 1..]);
      }
    }
  }

  lemma PrefixSplits(base: seq<string>, full: seq<string>, s: string)
    requires Names(base) && Names(full) && base != []
    requires Render(full) == Render(base) + "/" + s
    ensures base < full
  {
    assert |Render(full)| > 1;
    AppendSplit(base, s);
    SplitSlashes(base + Split(s));
    SplitSlashes(full);
    assert full == ([""] + full)[1..] == ([""] + (base + Split(s)))[1..] == base + Split(s);
  }

  lemma AppendSplit(base: seq<string>, s: string)
    requires Names(base) && base != []
    ensures Render(base) + "/" + s == Tail(base + Split(s))
    ensures forall c :: c in base + Split(s) ==> SlashFree(c)
  {
    var parts := Split(s);
    SplitSlashFree(s);
    assert forall c :: c in base ==> Name(c);
    JoinSplit(s);
    Assoc("/", parts[0], Tail(parts[1..]));
    TailConcat(base, parts);
    Assoc(Tail(base), "/", s);
  }

  /** Joining undoes splitting. */
  lemma {:induction false} JoinSplit(s: string)
    ensures s == Split(s)[0] + Tail(Split(s)[1..])
  {
    if s != "" {
      var parts := Split(s[1..]);
      JoinSplit(s[1..]);
      assert s == [s[0]] + s[1..];
      if s[0] == '/' {
        assert ([""] + parts)[1..] == parts;
        assert Tail(parts) == "/" + s[1..];
      } else {
        assert ([[s[0]] + parts[0]] + parts[1..])[1..] == parts[1..];
      }
    }
  }

  lemma {:induction false} SplitSlashFree(s: string)
    ensures forall c :: c in Split(s) ==> SlashFree(c)
  {
    if s != "" {
      SplitSlashFree(s[1..]);
      var parts := Split(s[1..]);
      assert SlashFree(parts[0]);
    }
  }
}
