/**
 What a rendered script leaves in the kernel, entry by entry, in terms of the parsed device alone.
 */
module TcOutcome {
  import opened Wrappers
  import opened TrafficControl
  import opened TcCommands
  import opened TcReplay
  import opened TcRebuild
  import opened TcTheorem

  // ----- words -----

  /** A letter, a digit, or one of `%` `+` `-` `.` `/` `:` `_`, by code point */
  predicate SafeLetter(c: char) {
    var v := c as int;
    65 <= v <= 90 || 97 <= v <= 122 || 48 <= v <= 57 || v == 37 || v == 43 || v == 45 || v == 46 || v == 47 || v == 58 || v == 95
  }

  predicate SafeWord(w: Word) {
    w != "" && forall i :: 0 <= i < |w| ==> SafeLetter(w[i])
  }

  /** The safe words of a list, in order */
  function SafeWords(ws: seq<Word>): seq<Word> {
    if ws == [] then []
    else if SafeWord(ws[0]) then [ws[0]] + SafeWords(ws[1..])
    else SafeWords(ws[1..])
  }

  function WithoutLevel(ws: seq<Word>): seq<Word> {
    if ws == [] then []
    else if ws[0] == "level" then WithoutLevel(ws[1..])
    else [ws[0]] + WithoutLevel(ws[1..])
  }

  // ----- the entries of a device -----

  /** Kinds of qdiscs that are rendered with their handle and parent */
  predicate Queueing(kind: Word) {
    || kind == "netem" || kind == "tbf" || kind == "htb" || kind == "fq_codel" || kind == "codel" || kind == "cake"
    || kind == "sfq" || kind == "pfifo" || kind == "bfifo" || kind == "pfifo_head_drop" || kind == "pfifo_fast" || kind == "prio"
  }

  predicate IsHook(q: Qdisc) {
    q.parent == Some("ingress")
  }

  /** A qdisc below the root that is rendered */
  predicate IsInner(q: Qdisc) {
    Queueing(q.kind) && q.parent != Some("root") && q.parent != Some("ingress")
  }

  predicate IsClass(c: Class) {
    c.kind == "htb"
  }

  predicate Classifies(kind: Word) {
    kind == "u32" || kind == "fw" || kind == "flower"
  }

  /** A filter of the ingress hook: its parent is `ingress` or begins with `ffff:`. */
  predicate HooksIn(f: Filter) {
    && f.parent.Some?
    && var p := f.parent.value;
    || p == "ingress"
    || (|p| >= 5 && p[0] == 'f' && p[1] == 'f' && p[2] == 'f' && p[3] == 'f' && p[4] == ':')
  }

  /** Where another filter hangs: from its parent, or from the root when it has none */
  function HangsFrom(root: Qdisc, f: Filter): Word {
    if f.parent.Some? && f.parent.value != "" then f.parent.value else root.handle
  }

  predicate AtTop(c: Class) {
    c.parent == None || c.parent == Some("root")
  }

  /** The handle of the qdisc that owns an identifier: up to its first colon */
  predicate Owns(handle: Word, id: Word) {
    exists k :: 0 <= k < |id| && id[k] == ':' && handle == id[..k + 1] && forall j :: 0 <= j < k ==> id[j] != ':'
  }

  // ----- the devices that the rendering is for -----

  ghost predicate OneOf<T(!new)>(xs: seq<T>, which: T -> bool, key: T -> Word) {
    forall i, j :: 0 <= i < j < |xs| && which(xs[i]) && which(xs[j]) ==> key(xs[i]) != key(xs[j])
  }

  ghost predicate RootFirst(d: Device, root: Qdisc) {
    exists r :: 0 <= r < |d.qdiscs| && d.qdiscs[r] == root && root.parent == Some("root")
                && forall i :: 0 <= i < r ==> d.qdiscs[i].parent != Some("root")
  }

  /** Every class hangs from the root, or from another class; in chains of fewer than 32. */
  ghost predicate ClassesHang(d: Device, root: Qdisc, rank: Word -> nat) {
    forall c :: c in d.classes && IsClass(c) ==>
      && SafeWord(c.id) && c.id != root.handle && rank(c.id) < 32
      && if AtTop(c) then Owns(root.handle, c.id)
         else && SafeWord(c.parent.value)
              && (c.parent.value == root.handle
                  || exists p :: p in d.classes && IsClass(p) && p.id == c.parent.value && rank(p.id) < rank(c.id))
  }

  ghost predicate InnersFit(d: Device, root: Qdisc) {
    forall q :: q in d.qdiscs && q.parent != Some("root") && q.parent != Some("ingress") && q.kind != "" ==>
      && q.kind != "ingress" && q.kind != "clsact"
      && (Queueing(q.kind) ==> SafeWord(q.handle) && q.parent.Some? && SafeWord(q.parent.value) && q.handle != root.handle)
  }

  /** A filter that is not on the hook hangs from a class or a qdisc of the device. */
  ghost predicate FiltersHang(d: Device, root: Qdisc) {
    forall f :: f in d.filters && Classifies(f.kind) && !HooksIn(f) ==>
      var p := HangsFrom(root, f);
      && SafeWord(p)
      && (|| p == root.handle
          || (exists c :: c in d.classes && IsClass(c) && c.id == p)
          || (exists q :: q in d.qdiscs && IsInner(q) && q.handle == p))
  }

  /** What any device must be like, whatever its root */
  ghost predicate Tidy(dev: Word, d: Device, root: Qdisc) {
    && SafeWord(dev) && RootFirst(d, root) && SafeWord(root.handle)
    && InnersFit(d, root) && FiltersHang(d, root)
    && OneOf(d.qdiscs, IsInner, HandleOf()) && OneOf(d.qdiscs, IsInner, ParentOf())
    && OneOf(d.qdiscs, IsHook, q => "")
    && forall q :: q in d.qdiscs && IsHook(q) ==> q.kind == "ingress" || q.kind == "clsact"
  }

  /** A device with classes under an htb */
  ghost predicate Scriptable(dev: Word, d: Device, root: Qdisc, rank: Word -> nat) {
    && Tidy(dev, d, root) && root.kind == "htb"
    && ClassesHang(d, root, rank) && OneOf(d.classes, IsClass, IdOf())
  }

  /** A device without classes: its root is one of the other kinds. */
  ghost predicate Classless(dev: Word, d: Device, root: Qdisc) {
    && Tidy(dev, d, root) && Queueing(root.kind) && root.kind != "htb"
    && forall c :: c in d.classes ==> !IsClass(c)
  }

  // ----- the kernel afterwards -----

  /** The class of an entry */
  function ClassMeant(root: Qdisc, c: Class): ClassNode {
    ClassNode(if c.parent == None || c.parent == Some("root") then root.handle else c.parent.value, SafeWords(WithoutLevel(c.tokens)))
  }

  ghost predicate ClassesMeant(classes: map<Word, ClassNode>, d: Device, root: Qdisc) {
    && (forall c :: c in d.classes && IsClass(c) ==> c.id in classes && classes[c.id] == ClassMeant(root, c))
    && (forall id :: id in classes ==> exists c :: c in d.classes && IsClass(c) && c.id == id)
  }

  ghost predicate QdiscsMeant(qdiscs: map<Word, QdiscNode>, d: Device, root: Qdisc) {
    && root.handle in qdiscs && qdiscs[root.handle] == QdiscNode(root.kind, None, SafeWords(root.params))
    && (forall q :: q in d.qdiscs && IsInner(q) ==>
          q.handle in qdiscs && qdiscs[q.handle] == QdiscNode(q.kind, q.parent, SafeWords(q.params)))
    && (forall h :: h in qdiscs ==> h == root.handle || exists q :: q in d.qdiscs && IsInner(q) && q.handle == h)
  }

  ghost predicate HookMeant(hook: Option<Word>, d: Device) {
    match hook
    case None => forall q :: q in d.qdiscs ==> !IsHook(q)
    case Some(kind) => exists q :: q in d.qdiscs && IsHook(q) && q.kind == kind
  }

  /** The filters of the tree, in order */
  function TreeFilters(root: Qdisc, fs: seq<Filter>): seq<Step> {
    if fs == [] then []
    else if Classifies(fs[0].kind) && !HooksIn(fs[0]) then
      [NewFilter(Some(HangsFrom(root, fs[0])), SafeWords(fs[0].body))] + TreeFilters(root, fs[1..])
    else TreeFilters(root, fs[1..])
  }

  /** The filters of the hook, in order, if there is one: clsact and ingress have different names for it. */
  function HookFilters(hook: Option<Word>, fs: seq<Filter>): seq<Step> {
    if fs == [] || hook == None then []
    else if Classifies(fs[0].kind) && HooksIn(fs[0]) then
      [NewFilter(if hook == Some("clsact") then None else Some("ffff:"), SafeWords(fs[0].body))] + HookFilters(hook, fs[1..])
    else HookFilters(hook, fs[1..])
  }

  ghost predicate KernelMeant(k: Kernel, d: Device, root: Qdisc) {
    && ClassesMeant(k.classes, d, root) && QdiscsMeant(k.qdiscs, d, root) && HookMeant(k.hook, d)
    && k.filters == TreeFilters(root, d.filters) + HookFilters(k.hook, d.filters)
  }

  /** Every inner qdisc hangs from a class. */
  ghost predicate InnersHang(d: Device) {
    forall q :: q in d.qdiscs && IsInner(q) ==>
      q.parent.Some? && exists c :: c in d.classes && IsClass(c) && c.id == q.parent.value
  }

  // ----- the words -----

  lemma SafeCharIs(c: char)
    ensures SafeChar(c) <==> SafeLetter(c)
  {
  }

  lemma SafeIs(w: Word)
    ensures Safe(w) <==> SafeWord(w)
  {
    forall i | 0 <= i < |w|
      ensures SafeChar(w[i]) <==> SafeLetter(w[i])
    {
      SafeCharIs(w[i]);
    }
    hide SafeChar, SafeLetter;
  }

  lemma {:induction false} SafeWordsAppend(a: seq<Word>, w: Word)
    ensures SafeWords(a + [w]) == SafeWords(a) + (if SafeWord(w) then [w] else [])
  {
    hide SafeWord;
    if a == [] {
      assert a + [w] == [w] && [w][1..] == [];
    } else {
      assert (a + [w])[0] == a[0] && (a + [w])[1..] == a[1..] + [w];
      SafeWordsAppend(a[1..], w);
    }
  }

  lemma {:induction false} SafeTokensAre(a: seq<Word>)
    ensures SafeTokens(a) == SafeWords(a)
  {
    if a != [] {
      SafeTokensAre(a[..|a| - 1]);
      SafeIs(a[|a| - 1]);
      hide Safe, SafeWord;
      SafeWordsAppend(a[..|a| - 1], a[|a| - 1]);
      assert a == a[..|a| - 1] + [a[|a| - 1]];
    }
  }

  lemma {:induction false} WithoutLevelAppend(a: seq<Word>, w: Word)
    ensures WithoutLevel(a + [w]) == WithoutLevel(a) + (if w == "level" then [] else [w])
  {
    if a == [] {
      assert a + [w] == [w] && [w][1..] == [];
    } else {
      assert (a + [w])[0] == a[0] && (a + [w])[1..] == a[1..] + [w];
      WithoutLevelAppend(a[1..], w);
    }
  }

  lemma {:induction false} SelectIsWithoutLevel(a: seq<Word>)
    ensures Select(a, t => t != "level") == WithoutLevel(a)
  {
    if a != [] {
      SelectIsWithoutLevel(a[..|a| - 1]);
      WithoutLevelAppend(a[..|a| - 1], a[|a| - 1]);
      assert a == a[..|a| - 1] + [a[|a| - 1]];
    }
  }

  lemma KindsAre(kind: Word)
    ensures kind in RenderedQdiscs <==> Queueing(kind) || kind == "ingress" || kind == "clsact"
    ensures kind in RenderedFilters <==> Classifies(kind)
  {
  }

  // ----- the parts of the device -----

  lemma {:induction false} SelectKeys<T(!new)>(xs: seq<T>, which: T -> bool, key: T -> Word)
    requires OneOf(xs, which, key)
    ensures DistinctKeys(Select(xs, which), key)
  {
    if xs != [] {
      var front, last := xs[..|xs| - 1], xs[|xs| - 1];
      SelectKeys(front, which, key);
      forall x | x in Select(front, which)
        ensures which(last) ==> key(x) != key(last)
      {
        SelectIs(front, which, x);
        var i :| 0 <= i < |front| && front[i] == x;
        assert xs[i] == x;
      }
    }
  }

  lemma {:induction false} SelectTwice<T>(xs: seq<T>, p: T -> bool, q: T -> bool, both: T -> bool)
    requires forall x :: x in xs ==> (both(x) <==> p(x) && q(x))
    ensures Select(Select(xs, p), q) == Select(xs, both)
  {
    if xs != [] {
      var front, last := xs[..|xs| - 1], xs[|xs| - 1];
      SelectTwice(front, p, q, both);
      assert last in xs;
      var kept := Select(front, p);
      assert (kept + [last])[..|kept|] == kept;
      assert kept + [] == kept;
    }
  }

  lemma ClassesAre(d: Device)
    ensures HtbClasses(d) == Select(d.classes, IsClass)
    ensures forall c :: c in HtbClasses(d) <==> c in d.classes && IsClass(c)
  {
    SelectTwice(d.classes, (c: Class) => true, (c: Class) => c.kind == "htb", IsClass);
    SelectAll(d.classes);
    forall c
      ensures c in Select(d.classes, IsClass) <==> c in d.classes && IsClass(c)
    {
      SelectIs(d.classes, IsClass, c);
    }
  }

  lemma {:induction false} SelectAll<T>(xs: seq<T>)
    ensures Select(xs, x => true) == xs
  {
    if xs != [] {
      SelectAll(xs[..|xs| - 1]);
    }
  }

  lemma InnersAre(d: Device, root: Qdisc)
    requires InnersFit(d, root)
    ensures RenderedOthers(d) == Select(d.qdiscs, IsInner)
    ensures forall q :: q in RenderedOthers(d) <==> q in d.qdiscs && IsInner(q)
  {
    forall q | q in d.qdiscs
      ensures IsInner(q) <==> (q.parent != Some("root") && q.parent != Some("ingress")) && IsRendered()(q)
    {
      KindsAre(q.kind);
      NoEmptyKind();
    }
    hide RenderedQdiscs, Queueing;
    SelectTwice(d.qdiscs, (q: Qdisc) => q.parent != Some("root") && q.parent != Some("ingress"), IsRendered(), IsInner);
    forall q
      ensures q in Select(d.qdiscs, IsInner) <==> q in d.qdiscs && IsInner(q)
    {
      SelectIs(d.qdiscs, IsInner, q);
    }
  }

  lemma NoEmptyKind()
    ensures "" !in RenderedQdiscs
  {
  }

  lemma HooksAre(d: Device)
    requires OneOf(d.qdiscs, IsHook, q => "")
    ensures |Hooks(d)| <= 1 && forall q :: q in Hooks(d) <==> q in d.qdiscs && IsHook(q)
  {
    SelectTwice(d.qdiscs, (q: Qdisc) => true, (q: Qdisc) => q.parent == Some("ingress"), IsHook);
    SelectAll(d.qdiscs);
    SelectKeys(d.qdiscs, IsHook, q => "");
    if |Hooks(d)| >= 2 {
      TwoKeys(Hooks(d), q => "");
    }
    forall q
      ensures q in Select(d.qdiscs, IsHook) <==> q in d.qdiscs && IsHook(q)
    {
      SelectIs(d.qdiscs, IsHook, q);
    }
  }

  lemma TwoKeys<T>(xs: seq<T>, key: T -> Word)
    requires |xs| >= 2 && forall x, y :: key(x) == key(y)
    ensures !DistinctKeys(xs, key)
  {
    assert key(xs[0]) == key(xs[1]);
  }

  lemma {:induction false} RootIsFirst(qdiscs: seq<Qdisc>, root: Qdisc, r: nat)
    requires r < |qdiscs| && qdiscs[r] == root && root.parent == Some("root")
    requires forall i :: 0 <= i < r ==> qdiscs[i].parent != Some("root")
    ensures RootQdisc(qdiscs) == Some(root)
  {
    if r > 0 {
      assert qdiscs[0].parent != Some("root");
      RootIsFirst(qdiscs[1..], root, r - 1);
    }
  }

  // ----- the classes -----

  lemma {:induction false} MajorIs(id: Word, k: nat)
    requires k < |id| && id[k] == ':' && forall j :: 0 <= j < k ==> id[j] != ':'
    ensures Major(id) == Some(id[..k + 1])
  {
    if k > 0 {
      assert id[0] != ':';
      MajorIs(id[1..], k - 1);
      assert [id[0]] + id[1..][..k] == id[..k + 1];
    } else {
      assert id[..1] == [id[0]];
    }
  }

  lemma ParentWordIs(root: Qdisc, c: Class)
    requires AtTop(c) ==> Owns(root.handle, c.id)
    ensures ParentWord(c) == if AtTop(c) then root.handle else c.parent.value
  {
    if AtTop(c) {
      var k :| 0 <= k < |c.id| && c.id[k] == ':' && root.handle == c.id[..k + 1] && forall j :: 0 <= j < k ==> c.id[j] != ':';
      MajorIs(c.id, k);
    }
  }

  /** The climb from a class is no longer than its rank. */
  lemma {:induction false} StepsAreFew(d: Device, root: Qdisc, rank: Word -> nat, c: Class, fuel: nat)
    requires ClassesHang(d, root, rank) && c in d.classes && IsClass(c)
    ensures Steps(ById(HtbClasses(d)), c, fuel) <= rank(c.id)
    decreases fuel
  {
    var ids := ById(HtbClasses(d));
    if fuel > 0 && !Rooted(c.parent) && c.parent.value in ids {
      ByIdIs(HtbClasses(d), c.parent.value);
      ClassesAre(d);
      hide ById, HtbClasses, SafeWord, Owns;
      var p := ids[c.parent.value];
      assert c.parent.value != root.handle;
      StepsAreFew(d, root, rank, p, fuel - 1);
    }
  }

  lemma TreeIsClassTree(d: Device, root: Qdisc, rank: Word -> nat)
    requires RootFirst(d, root) && root.kind == "htb" && SafeWord(root.handle)
    requires ClassesHang(d, root, rank) && OneOf(d.classes, IsClass, IdOf())
    ensures ClassTree(d, root)
  {
    RootIsThere(d, root);
    ClassesAre(d);
    SelectKeys(d.classes, IsClass, IdOf());
    RootWords(root);
    hide Select, HtbClasses, Safe, SafeWord, RootQdisc, Steps;
    forall c | c in HtbClasses(d)
      ensures SafeClass(c) && ClassDepth(HtbClasses(d), c) < 32
      ensures ParentWord(c) == root.handle || (!Rooted(c.parent) && c.parent.value in ById(HtbClasses(d)))
    {
      StepsAreFew(d, root, rank, c, 32);
      ParentWordIs(root, c);
      ClassWords(root, c);
      if !AtTop(c) {
        ByIdIs(HtbClasses(d), c.parent.value);
      }
    }
  }

  lemma RootWords(root: Qdisc)
    requires SafeWord(root.handle) && root.kind == "htb" && root.parent == Some("root")
    ensures SafeQdisc(root)
  {
    SafeIs(root.handle);
    LiteralsAreSafe();
    hide Safe, SafeWord;
  }

  lemma ClassWords(root: Qdisc, c: Class)
    requires SafeWord(root.handle) && SafeWord(c.id) && if AtTop(c) then Owns(root.handle, c.id) else SafeWord(c.parent.value)
    ensures SafeClass(c)
  {
    ParentWordIs(root, c);
    SafeIs(root.handle);
    SafeIs(c.id);
    if !AtTop(c) {
      SafeIs(c.parent.value);
    }
    hide Safe, SafeWord, ParentWord, Owns;
  }

  // ----- the assumptions of the replay -----

  lemma PlacesAre(root: Qdisc, f: Filter)
    requires root.handle != ""
    ensures OnIngress(f) <==> HooksIn(f)
    ensures EgressPlace(Some(root), f) == ["parent", HangsFrom(root, f)]
  {
    if f.parent.Some? && |f.parent.value| >= 5 {
      var p := f.parent.value;
      assert p[..5] == [p[0], p[1], p[2], p[3], p[4]];
    }
  }

  lemma PlaceIsKnown(d: Device, root: Qdisc, p: Word)
    requires InnersFit(d, root)
    requires || p == root.handle
             || (exists c :: c in d.classes && IsClass(c) && c.id == p)
             || (exists q :: q in d.qdiscs && IsInner(q) && q.handle == p)
    ensures Known(d, root, p)
  {
    ClassesAre(d);
    InnersAre(d, root);
    hide HtbClasses, RenderedOthers;
    if p == root.handle {
      assert root in [root] + RenderedOthers(d);
    } else if c :| c in d.classes && IsClass(c) && c.id == p {
      assert c in HtbClasses(d);
    } else {
      var q :| q in d.qdiscs && IsInner(q) && q.handle == p;
      assert q in [root] + RenderedOthers(d);
    }
  }

  lemma InnersAreFit(d: Device, root: Qdisc, q: Qdisc)
    requires InnersFit(d, root) && q in d.qdiscs && IsInner(q)
    ensures SafeQdisc(q) && Plain(q) && q.handle != root.handle
  {
    NoEmptyKind();
    KindsAre(q.kind);
    SafeIs(q.handle);
    SafeIs(q.parent.value);
    KindIsSafe(q.kind);
    hide Safe, SafeWord, RenderedQdiscs;
  }

  lemma KindIsSafe(kind: Word)
    requires Queueing(kind)
    ensures Safe(kind)
  {
  }

  lemma TidyFits(dev: Word, d: Device, root: Qdisc)
    requires Tidy(dev, d, root)
    ensures Fits(dev, d, root)
  {
    SafeIs(dev);
    RootIsThere(d, root);
    InnersAre(d, root);
    HooksAre(d);
    SelectKeys(d.qdiscs, IsInner, HandleOf());
    SelectKeys(d.qdiscs, IsInner, ParentOf());
    hide Select, Safe, RootFirst, RootQdisc, RenderedOthers, Hooks, OneOf, DistinctKeys, IsInner, Known;
    forall q | q in RenderedOthers(d)
      ensures SafeQdisc(q) && Plain(q) && q.handle != root.handle
    {
      InnersAreFit(d, root, q);
    }
    forall f | f in d.filters && f.kind in RenderedFilters && !OnIngress(f) && EgressPlace(Some(root), f) != []
      ensures Safe(EgressPlace(Some(root), f)[1]) && Known(d, root, EgressPlace(Some(root), f)[1])
    {
      PlacesAre(root, f);
      KindsAre(f.kind);
      SafeIs(HangsFrom(root, f));
      PlaceIsKnown(d, root, HangsFrom(root, f));
    }
  }

  lemma RootIsThere(d: Device, root: Qdisc)
    requires RootFirst(d, root)
    ensures RootQdisc(d.qdiscs) == Some(root) && root.parent == Some("root")
  {
    var r :| 0 <= r < |d.qdiscs| && d.qdiscs[r] == root && root.parent == Some("root")
             && forall i :: 0 <= i < r ==> d.qdiscs[i].parent != Some("root");
    RootIsFirst(d.qdiscs, root, r);
  }

  lemma ScriptableIsRenderable(dev: Word, d: Device, root: Qdisc, rank: Word -> nat)
    requires Scriptable(dev, d, root, rank)
    ensures Renderable(dev, d, root)
  {
    TidyFits(dev, d, root);
    assert RootFirst(d, root) && SafeWord(root.handle);
    hide Tidy, Fits, ClassTree, ClassesHang, RootFirst, SafeWord, OneOf;
    TreeIsClassTree(d, root, rank);
  }

  // ----- what the replay leaves -----

  lemma NodesAre(q: Qdisc)
    ensures QdiscNodeOf(q) == QdiscNode(q.kind, if q.parent == Some("root") then None else q.parent, SafeWords(q.params))
  {
    SafeTokensAre(q.params);
  }

  lemma ClassNodeIs(root: Qdisc, c: Class)
    requires AtTop(c) ==> Owns(root.handle, c.id)
    ensures ClassNodeOf(c) == ClassMeant(root, c)
  {
    ParentWordIs(root, c);
    SelectIsWithoutLevel(c.tokens);
    SafeTokensAre(WithoutLevel(c.tokens));
    hide SafeTokens, Select, ParentWord;
  }

  lemma {:induction false} TreeFiltersAppend(root: Qdisc, fs: seq<Filter>, f: Filter)
    ensures TreeFilters(root, fs + [f]) == TreeFilters(root, fs) + TreeFilters(root, [f])
  {
    hide HooksIn, HangsFrom, SafeWords, Classifies;
    if fs == [] {
      assert fs + [f] == [f];
    } else {
      assert (fs + [f])[0] == fs[0] && (fs + [f])[1..] == fs[1..] + [f];
      TreeFiltersAppend(root, fs[1..], f);
    }
  }

  lemma {:induction false} HookFiltersAppend(hook: Option<Word>, fs: seq<Filter>, f: Filter)
    ensures HookFilters(hook, fs + [f]) == HookFilters(hook, fs) + HookFilters(hook, [f])
  {
    hide HooksIn, SafeWords, Classifies;
    if fs == [] {
      assert fs + [f] == [f];
    } else {
      assert (fs + [f])[0] == fs[0] && (fs + [f])[1..] == fs[1..] + [f];
      HookFiltersAppend(hook, fs[1..], f);
    }
  }

  lemma TreeFilterIs(root: Qdisc, f: Filter)
    requires root.handle != ""
    ensures EgressSteps(root)(f) == TreeFilters(root, [f])
  {
    PlacesAre(root, f);
    KindsAre(f.kind);
    SafeTokensAre(f.body);
    hide OnIngress, EgressPlace, RenderedFilters, HooksIn, SafeWords, SafeTokens, HangsFrom;
    assert [f][1..] == [];
    assert TreeFilters(root, []) == [];
  }

  lemma HookFilterIs(root: Qdisc, hooks: seq<Qdisc>, f: Filter)
    requires root.handle != "" && |hooks| <= 1
    ensures IngressSteps(hooks)(f) == HookFilters(if hooks == [] then None else Some(hooks[0].kind), [f])
  {
    PlacesAre(root, f);
    KindsAre(f.kind);
    SafeTokensAre(f.body);
    hide OnIngress, EgressPlace, RenderedFilters, HooksIn, SafeWords, SafeTokens, HangsFrom;
    assert [f][1..] == [];
  }

  lemma {:induction false} FiltersAre(root: Qdisc, hooks: seq<Qdisc>, fs: seq<Filter>)
    requires root.handle != "" && |hooks| <= 1
    ensures All(fs, EgressSteps(root)) == TreeFilters(root, fs)
    ensures All(fs, IngressSteps(hooks)) == HookFilters(if hooks == [] then None else Some(hooks[0].kind), fs)
  {
    if fs != [] {
      var front, f := fs[..|fs| - 1], fs[|fs| - 1];
      assert fs == front + [f];
      FiltersAre(root, hooks, front);
      hide EgressSteps, IngressSteps, TreeFilters, HookFilters;
      TreeFilterIs(root, f);
      HookFilterIs(root, hooks, f);
      TreeFiltersAppend(root, front, f);
      HookFiltersAppend(if hooks == [] then None else Some(hooks[0].kind), front, f);
    }
  }

  lemma ClassesRebuilt(d: Device, root: Qdisc, rank: Word -> nat, classes: map<Word, ClassNode>)
    requires ClassesHang(d, root, rank) && HasClasses(classes, HtbClasses(d))
    ensures ClassesMeant(classes, d, root)
  {
    ClassesAre(d);
    hide HtbClasses, ClassNodeOf, ClassMeant, Owns, SafeWord;
    forall c | c in d.classes && IsClass(c)
      ensures ClassNodeOf(c) == ClassMeant(root, c)
    {
      ClassNodeIs(root, c);
    }
  }

  lemma QdiscsRebuilt(d: Device, root: Qdisc, qdiscs: map<Word, QdiscNode>)
    requires InnersFit(d, root) && root.parent == Some("root")
    requires HasQdiscs(qdiscs, map[root.handle := QdiscNodeOf(root)], RenderedOthers(d))
    ensures QdiscsMeant(qdiscs, d, root)
  {
    InnersAre(d, root);
    NodesAre(root);
    hide RenderedOthers, QdiscNodeOf, IsInner, InnersFit, SafeWords;
    forall q | q in d.qdiscs && IsInner(q)
      ensures QdiscNodeOf(q) == QdiscNode(q.kind, q.parent, SafeWords(q.params))
    {
      InnerParent(q);
      NodesAre(q);
    }
  }

  lemma RebuiltIsMeant(dev: Word, d: Device, root: Qdisc, k: Kernel)
    requires Tidy(dev, d, root) && Rebuilt(k, d, root) && ClassesMeant(k.classes, d, root)
    ensures KernelMeant(k, d, root)
  {
    TidyParts(dev, d, root);
    hide Tidy, InnersFit, HasClasses, HasQdiscs, ClassesMeant, QdiscsMeant, TreeFilters, HookFilters, EgressSteps, IngressSteps,
      Hooks, IsHook;
    QdiscsRebuilt(d, root, k.qdiscs);
    FiltersAre(root, Hooks(d), d.filters);
    if Hooks(d) != [] {
      assert Hooks(d)[0] in Hooks(d);
    }
  }

  lemma TidyParts(dev: Word, d: Device, root: Qdisc)
    requires Tidy(dev, d, root)
    ensures InnersFit(d, root) && root.parent == Some("root")
    ensures root.handle != "" && |Hooks(d)| <= 1 && forall q :: q in Hooks(d) <==> q in d.qdiscs && IsHook(q)
  {
    HooksAre(d);
    hide InnersFit, Hooks, FiltersHang, OneOf;
  }

  lemma InnerParent(q: Qdisc)
    requires IsInner(q)
    ensures q.parent != Some("root")
  {
  }

  lemma AttachedIs(d: Device, root: Qdisc)
    requires InnersFit(d, root)
    ensures Attached(d) <==> InnersHang(d)
  {
    ClassesAre(d);
    InnersAre(d, root);
    hide HtbClasses, RenderedOthers, IsInner;
    forall id
      ensures id in ById(HtbClasses(d)) <==> exists c :: c in d.classes && IsClass(c) && c.id == id
    {
      ByIdIs(HtbClasses(d), id);
    }
  }

  /** The script of a device succeeds exactly when every inner qdisc hangs from a class, and then leaves the entries
      of the device, its filters where they belong, and nothing else. */
  lemma ScriptLeaves(dev: Word, d: Device, root: Qdisc, rank: Word -> nat)
    requires Scriptable(dev, d, root, rank)
    ensures var k := Replay(dev, Some(Bare), DeviceCommands(dev, d));
            (k.Some? <==> InnersHang(d)) && (k.Some? ==> KernelMeant(k.value, d, root))
  {
    ScriptableIsRenderable(dev, d, root, rank);
    AttachedIs(d, root);
    hide Renderable, Attached, InnersHang, Replay, KernelMeant, HasQdiscs, HasClasses, ClassesMeant;
    RebuildsExactly(dev, d, root);
    if Attached(d) {
      var k := RebuildsAttached(dev, d, root);
      ClassesRebuilt(d, root, rank, k.classes);
      RebuiltIsMeant(dev, d, root, k);
    }
  }

  // ----- a device with a hook -----

  const TopRoot: Qdisc := Qdisc("htb", "1:", Some("root"), [])
  const TopClass: Class := Class("htb", "1:10", None, ["rate", "1mbit", "level", "0"])

  /** An htb with a class, a hook of the given kind, a filter of the hook and one without a parent */
  function HookedDevice(kind: Word): Device {
    Device([Qdisc(kind, "ffff:", Some("ingress"), []), TopRoot], [TopClass],
           [Filter("u32", Some("ffff:"), ["u32"]), Filter("fw", None, ["fw"])])
  }

  function NoRank(): Word -> nat {
    (w: Word) => 0
  }

  lemma HookedWords()
    ensures SafeWord("eth0") && SafeWord("1:") && SafeWord("1:10") && SafeWord("u32") && SafeWord("fw")
    ensures Owns("1:", "1:10")
  {
    assert "1:10"[1] == ':' && "1:10"[..2] == "1:";
  }

  lemma HookedFits(kind: Word)
    requires kind == "ingress" || kind == "clsact"
    ensures Scriptable("eth0", HookedDevice(kind), TopRoot, NoRank()) && InnersHang(HookedDevice(kind))
  {
    HookedWords();
    var d := HookedDevice(kind);
    assert d.qdiscs[1] == TopRoot;
    hide SafeWord, Owns;
    assert RootFirst(d, TopRoot);
    assert ClassesHang(d, TopRoot, NoRank());
    assert forall q :: q in d.qdiscs ==> !IsInner(q);
    assert FiltersHang(d, TopRoot);
  }

  lemma HookIsThere(kind: Word, hook: Option<Word>)
    requires HookMeant(hook, HookedDevice(kind))
    ensures hook == Some(kind)
  {
    assert IsHook(HookedDevice(kind).qdiscs[0]);
  }

  lemma SafeWordAlone(w: Word)
    requires SafeWord(w)
    ensures SafeWords([w]) == [w]
  {
    assert [w][1..] == [];
  }

  lemma HookedFilters(kind: Word)
    requires kind == "ingress" || kind == "clsact"
    ensures TreeFilters(TopRoot, HookedDevice(kind).filters) == [NewFilter(Some("1:"), ["fw"])]
    ensures HookFilters(Some(kind), HookedDevice(kind).filters)
         == [NewFilter(if kind == "clsact" then None else Some("ffff:"), ["u32"])]
  {
    HookedWords();
    SafeWordAlone("fw");
    SafeWordAlone("u32");
    hide SafeWord, SafeWords, Owns;
    var fs := HookedDevice(kind).filters;
    assert fs[1..] == [fs[1]] && [fs[1]][1..] == [];
    assert TreeFilters(TopRoot, []) == [] && HookFilters(Some(kind), []) == [];
    assert TreeFilters(TopRoot, [fs[1]]) == [NewFilter(Some("1:"), ["fw"])];
    assert HookFilters(Some(kind), [fs[1]]) == [];
  }

  /** Its script is replayed: the filter without a parent hangs from the root, the other one is on the hook. */
  lemma HookedIsReplayed(kind: Word)
    requires kind == "ingress" || kind == "clsact"
    ensures var k := Replay("eth0", Some(Bare), DeviceCommands("eth0", HookedDevice(kind)));
      && k.Some? && k.value.hook == Some(kind)
      && k.value.filters == [NewFilter(Some("1:"), ["fw"]), NewFilter(if kind == "clsact" then None else Some("ffff:"), ["u32"])]
  {
    hide Scriptable, InnersHang, Replay, DeviceCommands, ClassesMeant, QdiscsMeant, TreeFilters, HookFilters, HookMeant, HookedDevice;
    HookedFits(kind);
    ScriptLeaves("eth0", HookedDevice(kind), TopRoot, NoRank());
    HookIsThere(kind, Replay("eth0", Some(Bare), DeviceCommands("eth0", HookedDevice(kind))).value.hook);
    HookedFilters(kind);
  }
}
