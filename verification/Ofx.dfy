/** Reading OFX by its tags (`imports/ofx.py`): a stack of open groups that tolerates missing and
    stray closing tags. `Parse` is the stack machine on values; `BuildTree` is the source's loop
    over nodes it links together in place. */
module Ofx {

  /** A tag with the text after it, in capitals and tidied as the source has them. */
  datatype Tag = Open(name: string, text: string) | Close(name: string)

  datatype Tree = Tree(tag: string, text: string, children: seq<Tree>)

  // ---- The stack machine, on values ----

  /** A group that is still open, and what it has so far. */
  datatype Frame = Frame(tag: string, kids: seq<Tree>)

  const ROOT := Frame("", [])

  /** The innermost open group with this tag, never the root; 0 when there is none. */
  function DepthOf(frames: seq<Frame>, tag: string): (depth: nat)
    ensures depth < |frames| || depth == 0
    ensures depth > 0 ==> frames[depth].tag == tag
    ensures forall i :: depth < i < |frames| ==> i == 0 || frames[i].tag != tag
  {
    if |frames| <= 1 then 0
    else if frames[|frames| - 1].tag == tag then |frames| - 1
    else DepthOf(frames[..|frames| - 1], tag)
  }

  function Append(frames: seq<Frame>, tree: Tree): seq<Frame>
    requires frames != []
  {
    var n := |frames| - 1;
    frames[..n] + [Frame(frames[n].tag, frames[n].kids + [tree])]
  }

  /** Closes the innermost group: it becomes the last child of the one around it. */
  function CloseOne(frames: seq<Frame>): seq<Frame>
    requires |frames| > 1
  {
    var n := |frames| - 1;
    Append(frames[..n], Tree(frames[n].tag, "", frames[n].kids))
  }

  /** Closes groups until `depth` are left. */
  function CloseTo(frames: seq<Frame>, depth: nat): (r: seq<Frame>)
    requires 1 <= depth <= |frames|
    ensures |r| == depth
    decreases |frames|
  {
    if |frames| == depth then frames else CloseTo(CloseOne(frames), depth)
  }

  function Step(frames: seq<Frame>, tag: Tag): (r: seq<Frame>)
    requires frames != []
    ensures r != []
  {
    match tag
    case Close(name) =>
      var depth := DepthOf(frames, name);
      if depth == 0 then frames else CloseTo(frames, depth)
    case Open(name, text) =>
      if text != "" then Append(frames, Tree(name, text, []))
      else frames + [Frame(name, [])]
  }

  function Steps(frames: seq<Frame>, tags: seq<Tag>): (r: seq<Frame>)
    requires frames != []
    ensures r != []
  {
    if tags == [] then frames else Step(Steps(frames, tags[..|tags| - 1]), tags[|tags| - 1])
  }

  function Parse(tags: seq<Tag>): Tree {
    var root := CloseTo(Steps([ROOT], tags), 1)[0];
    Tree("", "", root.kids)
  }

  lemma {:induction false} StepsCompose(frames: seq<Frame>, a: seq<Tag>, b: seq<Tag>)
    requires frames != []
    ensures Steps(frames, a + b) == Steps(Steps(frames, a), b)
  {
    hide Step;
    if b == [] {
      assert a + b == a;
    } else {
      var n := |b| - 1;
      assert (a + b)[..|a + b| - 1] == a + b[..n] && (a + b)[|a + b| - 1] == b[n];
      StepsCompose(frames, a, b[..n]);
    }
  }

  lemma StepsOne(frames: seq<Frame>, tag: Tag)
    requires frames != []
    ensures Steps(frames, [tag]) == Step(frames, tag)
  {
    assert [tag][..0] == [];
  }

  // ---- Any tags at all: nothing opened is lost, repeated or moved ----

  datatype Label = Label(tag: string, text: string)

  /** Everything inside, in the order the file has it. */
  function Inside(kids: seq<Tree>): seq<Label> {
    if kids == [] then []
    else
      var last := kids[|kids| - 1];
      Inside(kids[..|kids| - 1]) + [Label(last.tag, last.text)] + Inside(last.children)
  }

  function InsideFrames(frames: seq<Frame>): seq<Label>
    requires frames != []
  {
    var n := |frames| - 1;
    (if n == 0 then [] else InsideFrames(frames[..n]) + [Label(frames[n].tag, "")]) + Inside(frames[n].kids)
  }

  /** The opening tags, in order. */
  function Opened(tags: seq<Tag>): seq<Label> {
    if tags == [] then []
    else
      var last := tags[|tags| - 1];
      Opened(tags[..|tags| - 1]) + if last.Open? then [Label(last.name, last.text)] else []
  }

  lemma AppendAddsInside(frames: seq<Frame>, tree: Tree)
    requires frames != []
    ensures InsideFrames(Append(frames, tree)) ==
        InsideFrames(frames) + [Label(tree.tag, tree.text)] + Inside(tree.children)
  {
    var n := |frames| - 1;
    var kids := frames[n].kids + [tree];
    assert Append(frames, tree)[..n] == frames[..n];
    assert kids[..|kids| - 1] == frames[n].kids;
    assert Inside(kids) == Inside(frames[n].kids) + [Label(tree.tag, tree.text)] + Inside(tree.children);
  }

  lemma CloseOneKeepsInside(frames: seq<Frame>)
    requires |frames| > 1
    ensures InsideFrames(CloseOne(frames)) == InsideFrames(frames)
  {
    var n := |frames| - 1;
    AppendAddsInside(frames[..n], Tree(frames[n].tag, "", frames[n].kids));
  }

  lemma {:induction false} CloseToKeepsInside(frames: seq<Frame>, depth: nat)
    requires 1 <= depth <= |frames|
    ensures InsideFrames(CloseTo(frames, depth)) == InsideFrames(frames)
    decreases |frames|
  {
    if |frames| > depth {
      CloseOneKeepsInside(frames);
      CloseToKeepsInside(CloseOne(frames), depth);
    }
  }

  lemma {:induction false} StepsKeepInside(tags: seq<Tag>)
    ensures InsideFrames(Steps([ROOT], tags)) == Opened(tags)
  {
    if tags == [] {
      assert Inside(ROOT.kids) == [];
    } else {
      var n := |tags| - 1;
      StepsKeepInside(tags[..n]);
      var frames := Steps([ROOT], tags[..n]);
      match tags[n]
      case Close(name) =>
        var depth := DepthOf(frames, name);
        if depth > 0 { CloseToKeepsInside(frames, depth); }
      case Open(name, text) =>
        if text != "" {
          AppendAddsInside(frames, Tree(name, text, []));
        } else {
          assert (frames + [Frame(name, [])])[..|frames|] == frames;
        }
    }
  }

  /** However malformed a file is, its elements are exactly its opening tags, in order. */
  lemma ParseKeepsEveryElement(tags: seq<Tag>)
    ensures Inside(Parse(tags).children) == Opened(tags)
  {
    StepsKeepInside(tags);
    CloseToKeepsInside(Steps([ROOT], tags), 1);
  }

  /** Everything inside with one of these tags, as the source's generator yields it. */
  function All(kids: seq<Tree>, tags: set<string>): seq<Tree> {
    if kids == [] then []
    else
      var last := kids[|kids| - 1];
      All(kids[..|kids| - 1], tags) + (if last.tag in tags then [last] else []) + All(last.children, tags)
  }

  function Labels(trees: seq<Tree>): seq<Label> {
    seq(|trees|, i requires 0 <= i < |trees| => Label(trees[i].tag, trees[i].text))
  }

  function Tagged(labels: seq<Label>, tags: set<string>): seq<Label> {
    if labels == [] then []
    else
      var last := labels[|labels| - 1];
      Tagged(labels[..|labels| - 1], tags) + if last.tag in tags then [last] else []
  }

  lemma {:induction false} TaggedAppends(a: seq<Label>, b: seq<Label>, tags: set<string>)
    ensures Tagged(a + b, tags) == Tagged(a, tags) + Tagged(b, tags)
  {
    if b == [] {
      assert a + b == a;
    } else {
      assert (a + b)[..|a + b| - 1] == a + b[..|b| - 1] && (a + b)[|a + b| - 1] == b[|b| - 1];
      TaggedAppends(a, b[..|b| - 1], tags);
    }
  }

  lemma TaggedOne(one: Label, tags: set<string>)
    ensures Tagged([one], tags) == if one.tag in tags then [one] else []
  {
    assert [one][..0] == [];
  }

  lemma LabelsOne(tree: Tree)
    ensures Labels([tree]) == [Label(tree.tag, tree.text)] && Labels([]) == []
  {
  }

  lemma LabelsAppend(a: seq<Tree>, b: seq<Tree>)
    ensures Labels(a + b) == Labels(a) + Labels(b)
  {
  }

  lemma {:induction false} AllIsTagged(kids: seq<Tree>, tags: set<string>)
    ensures Labels(All(kids, tags)) == Tagged(Inside(kids), tags)
  {
    if kids != [] {
      var n := |kids| - 1;
      var last := kids[n];
      AllIsTagged(kids[..n], tags);
      AllIsTagged(last.children, tags);
      var own := [Label(last.tag, last.text)];
      TaggedAppends(Inside(kids[..n]) + own, Inside(last.children), tags);
      TaggedAppends(Inside(kids[..n]), own, tags);
      TaggedOne(own[0], tags);
      LabelsAppend(All(kids[..n], tags), if last.tag in tags then [last] else []);
      LabelsAppend(All(kids[..n], tags) + if last.tag in tags then [last] else [], All(last.children, tags));
      hide Tagged, Labels;
      assert Labels(if last.tag in tags then [last] else []) ==
        if last.tag in tags then own else [] by { LabelsOne(last); }
    }
  }

  /** Whatever a file's tags, looking through its tree for some finds each one opened, once and in order. */
  lemma AllFindsEveryOne(file: seq<Tag>, tags: set<string>)
    ensures Labels(All(Parse(file).children, tags)) == Tagged(Opened(file), tags)
  {
    ParseKeepsEveryElement(file);
    AllIsTagged(Parse(file).children, tags);
  }

  // ---- Files as they should be: reading gives back what was written ----

  /** Values have a text and nothing inside; groups have no text. */
  predicate WellFormed(kids: seq<Tree>) {
    forall i :: 0 <= i < |kids| ==> (kids[i].text != "" ==> kids[i].children == []) && WellFormed(kids[i].children)
  }

  /** OFX 1 leaves the closing tag of a value out (section 2.3 of OFX 1.6); OFX 2, being XML, has it. */
  function Render(kids: seq<Tree>, xml: bool): seq<Tag> {
    if kids == [] then [] else Render(kids[..|kids| - 1], xml) + RenderOne(kids[|kids| - 1], xml)
  }

  function RenderOne(tree: Tree, xml: bool): seq<Tag> {
    if tree.text != "" then [Open(tree.tag, tree.text)] + if xml then [Close(tree.tag)] else []
    else [Open(tree.tag, "")] + Render(tree.children, xml) + [Close(tree.tag)]
  }

  /** No value has the tag of a group it is in. */
  predicate Clear(kids: seq<Tree>, groups: set<string>) {
    forall i :: 0 <= i < |kids| ==>
      if kids[i].text != "" then kids[i].tag !in groups else Clear(kids[i].children, groups + {kids[i].tag})
  }

  function Groups(frames: seq<Frame>): set<string> {
    set i | 1 <= i < |frames| :: frames[i].tag
  }

  function AppendAll(frames: seq<Frame>, kids: seq<Tree>): seq<Frame>
    requires frames != []
  {
    var n := |frames| - 1;
    frames[..n] + [Frame(frames[n].tag, frames[n].kids + kids)]
  }

  lemma AppendAllThenOne(frames: seq<Frame>, kids: seq<Tree>)
    requires frames != [] && kids != []
    ensures Append(AppendAll(frames, kids[..|kids| - 1]), kids[|kids| - 1]) == AppendAll(frames, kids)
    ensures AppendAll(frames, []) == frames
  {
    var n := |frames| - 1;
    assert frames[n].kids + kids[..|kids| - 1] + [kids[|kids| - 1]] == frames[n].kids + kids by {
      assert kids == kids[..|kids| - 1] + [kids[|kids| - 1]];
    }
    assert frames[n].kids + [] == frames[n].kids;
  }

  lemma GroupsOf(frames: seq<Frame>, kids: seq<Tree>, tag: string)
    requires frames != []
    ensures Groups(AppendAll(frames, kids)) == Groups(frames)
    ensures Groups(frames + [Frame(tag, kids)]) == Groups(frames) + {tag}
  {
    var pushed := frames + [Frame(tag, kids)];
    assert pushed[|frames|].tag == tag;
    forall i | 1 <= i < |frames|
      ensures AppendAll(frames, kids)[i].tag == frames[i].tag && pushed[i].tag == frames[i].tag
    {
    }
    forall g
      ensures g in Groups(pushed) <==> g in Groups(frames) + {tag}
      ensures g in Groups(AppendAll(frames, kids)) <==> g in Groups(frames)
    {
      if g in Groups(frames) {
        var i :| 1 <= i < |frames| && frames[i].tag == g;
        assert pushed[i].tag == g && AppendAll(frames, kids)[i].tag == g;
      }
    }
  }

  /** Where a value's closing tag is no open group's, it is ignored. */
  lemma StrayCloseIgnored(frames: seq<Frame>, tag: string)
    requires frames != [] && tag !in Groups(frames)
    ensures Step(frames, Close(tag)) == frames
  {
    assert forall i :: 1 <= i < |frames| ==> frames[i].tag in Groups(frames);
  }

  /** A group's closing tag closes it when everything in it has been closed. */
  lemma CloseClosesTheTop(frames: seq<Frame>, tag: string, kids: seq<Tree>)
    requires frames != []
    ensures Step(frames + [Frame(tag, kids)], Close(tag)) == Append(frames, Tree(tag, "", kids))
  {
    var pushed := frames + [Frame(tag, kids)];
    assert DepthOf(pushed, tag) == |frames|;
    assert pushed[..|frames|] == frames;
    assert CloseTo(pushed, |frames|) == CloseTo(CloseOne(pushed), |frames|) == CloseOne(pushed);
  }

  lemma ReadValue(frames: seq<Frame>, tree: Tree, xml: bool)
    requires frames != [] && tree.text != "" && tree.children == []
    requires xml ==> tree.tag !in Groups(frames)
    ensures Steps(frames, RenderOne(tree, xml)) == Append(frames, tree)
  {
    var open := Open(tree.tag, tree.text);
    StepsOne(frames, open);
    assert tree == Tree(tree.tag, tree.text, []);
    if xml {
      AppendAllThenOne(frames, [tree]);
      assert [tree][..0] == [];
      GroupsOf(frames, [tree], tree.tag);
      StepsCompose(frames, [open], [Close(tree.tag)]);
      StepsOne(Append(frames, tree), Close(tree.tag));
      StrayCloseIgnored(Append(frames, tree), tree.tag);
    } else {
      assert [open] + [] == [open];
    }
  }

  lemma ReadGroup(frames: seq<Frame>, tree: Tree, xml: bool)
    requires frames != [] && tree.text == ""
    requires var pushed := frames + [Frame(tree.tag, [])];
      Steps(pushed, Render(tree.children, xml)) == AppendAll(pushed, tree.children)
    ensures Steps(frames, RenderOne(tree, xml)) == Append(frames, tree)
  {
    var open, inside, close := [Open(tree.tag, "")], Render(tree.children, xml), [Close(tree.tag)];
    var pushed := frames + [Frame(tree.tag, [])];
    StepsOne(frames, open[0]);
    StepsCompose(frames, open, inside);
    StepsCompose(frames, open + inside, close);
    var full := AppendAll(pushed, tree.children);
    assert pushed[..|frames|] == frames && [] + tree.children == tree.children;
    assert full == frames + [Frame(tree.tag, tree.children)];
    StepsOne(full, close[0]);
    CloseClosesTheTop(frames, tree.tag, tree.children);
  }

  lemma NoSteps(frames: seq<Frame>)
    requires frames != []
    ensures Steps(frames, []) == AppendAll(frames, []) == frames
  {
    assert frames[|frames| - 1].kids + [] == frames[|frames| - 1].kids;
  }

  /** Reading what was written appends it to the group that is open, whatever is open around it. */
  lemma {:induction false} StepsReadBack(frames: seq<Frame>, kids: seq<Tree>, xml: bool)
    requires frames != [] && WellFormed(kids)
    requires xml ==> Clear(kids, Groups(frames))
    ensures Steps(frames, Render(kids, xml)) == AppendAll(frames, kids)
    decreases kids
  {
    hide Step, Steps, RenderOne, Groups;
    if kids == [] {
      NoSteps(frames);
    } else {
      var n := |kids| - 1;
      var last := kids[n];
      StepsReadBack(frames, kids[..n], xml);
      StepsCompose(frames, Render(kids[..n], xml), RenderOne(last, xml));
      var so := AppendAll(frames, kids[..n]);
      AppendAllThenOne(frames, kids);
      GroupsOf(frames, kids[..n], last.tag);
      if last.text != "" {
        ReadValue(so, last, xml);
      } else {
        GroupsOf(so, [], last.tag);
        StepsReadBack(so + [Frame(last.tag, [])], last.children, xml);
        ReadGroup(so, last, xml);
      }
    }
  }

  /** OFX 1 files read back as they are, whatever their tags. */
  lemma SgmlRoundTrip(kids: seq<Tree>)
    requires WellFormed(kids)
    ensures Parse(Render(kids, false)) == Tree("", "", kids)
  {
    StepsReadBack([ROOT], kids, false);
    assert [] + kids == kids;
  }

  /** OFX 2 files read back when no value has the tag of a group it is in. */
  lemma XmlRoundTrip(kids: seq<Tree>)
    requires WellFormed(kids) && Clear(kids, {})
    ensures Parse(Render(kids, true)) == Tree("", "", kids)
  {
    assert Groups([ROOT]) == {};
    StepsReadBack([ROOT], kids, true);
    assert [] + kids == kids;
  }

  /** A document whose values and groups have these tags. */
  predicate Uses(kids: seq<Tree>, values: set<string>, groups: set<string>) {
    forall i :: 0 <= i < |kids| ==>
      if kids[i].text != "" then kids[i].tag in values
      else kids[i].tag in groups && Uses(kids[i].children, values, groups)
  }

  lemma {:induction false} ApartIsClear(kids: seq<Tree>, values: set<string>, groups: set<string>, open: set<string>)
    requires Uses(kids, values, groups) && values !! groups && open <= groups
    ensures Clear(kids, open)
    decreases kids
  {
    forall i | 0 <= i < |kids| && kids[i].text == ""
      ensures Clear(kids[i].children, open + {kids[i].tag})
    {
      ApartIsClear(kids[i].children, values, groups, open + {kids[i].tag});
    }
  }

  /** Two values with the tag of the group they are in: the second is read as being after the group. */
  function Doubled(tag: string): seq<Tree> {
    [Tree(tag, "", [Tree(tag, "1", []), Tree(tag, "2", [])])]
  }

  function DoubledTags(tag: string): seq<Tag> {
    [Open(tag, ""), Open(tag, "1"), Close(tag), Open(tag, "2"), Close(tag), Close(tag)]
  }

  lemma DoubledIsWritten(tag: string)
    ensures Render(Doubled(tag), true) == DoubledTags(tag)
  {
    var one, two := Tree(tag, "1", []), Tree(tag, "2", []);
    var group := Tree(tag, "", [one, two]);
    assert RenderOne(one, true) == [Open(tag, "1"), Close(tag)] && RenderOne(two, true) == [Open(tag, "2"), Close(tag)];
    assert [one, two][..1] == [one] && [one][..0] == [] && [group][..0] == [];
    assert Render([one], true) == RenderOne(one, true);
    assert Render([one, two], true) == [Open(tag, "1"), Close(tag), Open(tag, "2"), Close(tag)];
  }

  lemma DoubledSteps(tag: string)
    ensures var tags := DoubledTags(tag);
      Step(Step(Step(Step(Step(Step([ROOT], tags[0]), tags[1]), tags[2]), tags[3]), tags[4]), tags[5])
      == [Frame("", [Tree(tag, "", [Tree(tag, "1", [])]), Tree(tag, "2", [])])]
  {
    var one, two, tags := Tree(tag, "1", []), Tree(tag, "2", []), DoubledTags(tag);
    var first := [ROOT, Frame(tag, [])];
    assert Step([ROOT], tags[0]) == first;
    assert Step(first, tags[1]) == [ROOT, Frame(tag, [one])] by { assert [] + [one] == [one]; }
    CloseClosesTheTop([ROOT], tag, [one]);
    assert [ROOT] + [Frame(tag, [one])] == [ROOT, Frame(tag, [one])];
    assert Append([ROOT], Tree(tag, "", [one])) == [Frame("", [Tree(tag, "", [one])])] by {
      assert [] + [Tree(tag, "", [one])] == [Tree(tag, "", [one])];
    }
    var closed := [Frame("", [Tree(tag, "", [one])])];
    assert Step([ROOT, Frame(tag, [one])], tags[2]) == closed;
    var last := [Frame("", [Tree(tag, "", [one]), two])];
    assert [Tree(tag, "", [one])] + [two] == [Tree(tag, "", [one]), two];
    assert Step(closed, tags[3]) == last;
    assert Step(last, Close(tag)) == last;
  }

  lemma SixSteps(frames: seq<Frame>, tags: seq<Tag>)
    requires frames != [] && |tags| == 6
    ensures Steps(frames, tags) == Step(Step(Step(Step(Step(Step(frames, tags[0]), tags[1]), tags[2]), tags[3]),
        tags[4]), tags[5])
  {
    hide Step;
    assert tags[..5][..4] == tags[..4] && tags[..4][..3] == tags[..3] && tags[..3][..2] == tags[..2];
    assert tags[..2][..1] == tags[..1] && tags[..1][..0] == [];
    assert Steps(frames, tags[..1]) == Step(frames, tags[0]);
    assert Steps(frames, tags[..2]) == Step(Steps(frames, tags[..1]), tags[1]);
    assert Steps(frames, tags[..3]) == Step(Steps(frames, tags[..2]), tags[2]);
    assert Steps(frames, tags[..4]) == Step(Steps(frames, tags[..3]), tags[3]);
    assert Steps(frames, tags[..5]) == Step(Steps(frames, tags[..4]), tags[4]);
  }

  lemma DoubledIsMisread(tag: string)
    ensures Parse(Render(Doubled(tag), true)) == Tree("", "", [Tree(tag, "", [Tree(tag, "1", [])]), Tree(tag, "2", [])])
  {
    DoubledIsWritten(tag);
    DoubledSteps(tag);
    SixSteps([ROOT], DoubledTags(tag));
  }

  /** Every OFX 2 document over some tags reads back exactly when no tag is both a value's and a group's. */
  lemma XmlRoundTripExactly(values: set<string>, groups: set<string>)
    ensures values !! groups
      <==> forall kids :: WellFormed(kids) && Uses(kids, values, groups) ==>
        Parse(Render(kids, true)) == Tree("", "", kids)
  {
    hide Parse, Render;
    if values !! groups {
      forall kids | WellFormed(kids) && Uses(kids, values, groups)
        ensures Parse(Render(kids, true)) == Tree("", "", kids)
      {
        ApartIsClear(kids, values, groups, {});
        XmlRoundTrip(kids);
      }
    } else {
      var tag :| tag in values && tag in groups;
      var kids := Doubled(tag);
      DoubledIsMisread(tag);
      assert Uses(kids[0].children, values, groups) && WellFormed(kids[0].children);
      assert Uses(kids, values, groups) && WellFormed(kids);
      assert |kids| == 1;
    }
  }

  // ---- Exactly which documents read back ----

  /** An element, and how many groups it is in. */
  datatype Entry = Entry(of: Label, depth: int)

  /** Everything inside, in order, with how deep it is. */
  function Outline(kids: seq<Tree>, depth: int): seq<Entry> {
    if kids == [] then []
    else Outline(kids[..|kids| - 1], depth) + OutlineOne(kids[|kids| - 1], depth)
  }

  function OutlineOne(tree: Tree, depth: int): seq<Entry> {
    [Entry(Label(tree.tag, tree.text), depth)] + Outline(tree.children, depth + 1)
  }

  function OutlineFrames(frames: seq<Frame>): seq<Entry>
    requires frames != []
  {
    var n := |frames| - 1;
    (if n == 0 then [] else OutlineFrames(frames[..n]) + [Entry(Label(frames[n].tag, ""), n - 1)])
    + Outline(frames[n].kids, n)
  }

  /** The open groups without the innermost with this tag and all inside it. */
  function CloseName(path: seq<string>, tag: string): (r: seq<string>)
    ensures r <= path && (r == path <==> tag !in path)
  {
    if tag !in path then path
    else
      var n := |path| - 1;
      assert path == path[..n] + [path[n]];
      if path[n] == tag then path[..n] else CloseName(path[..n], tag)
  }

  function StepNames(path: seq<string>, tag: Tag): seq<string> {
    match tag
    case Close(name) => CloseName(path, name)
    case Open(name, text) => if text != "" then path else path + [name]
  }

  /** The groups open once some tags are read. */
  function NamesAfter(path: seq<string>, tags: seq<Tag>): seq<string> {
    if tags == [] then path else StepNames(NamesAfter(path, tags[..|tags| - 1]), tags[|tags| - 1])
  }

  /** The opening tags, in order, with how many groups are open at each. */
  function OpenedAt(path: seq<string>, tags: seq<Tag>): seq<Entry> {
    if tags == [] then []
    else
      var n := |tags| - 1;
      OpenedAt(path, tags[..n])
      + if tags[n].Open? then [Entry(Label(tags[n].name, tags[n].text), |NamesAfter(path, tags[..n])|)] else []
  }

  function Names(frames: seq<Frame>): (r: seq<string>)
    requires frames != []
    ensures |r| == |frames| - 1
  {
    seq(|frames| - 1, i requires 0 <= i < |frames| - 1 => frames[i + 1].tag)
  }

  lemma {:induction false} CloseToNames(frames: seq<Frame>, depth: nat)
    requires 1 <= depth <= |frames|
    ensures Names(CloseTo(frames, depth)) == Names(frames)[..depth - 1]
    decreases |frames|
  {
    if |frames| > depth {
      CloseToNames(CloseOne(frames), depth);
      assert Names(CloseOne(frames)) == Names(frames)[..|frames| - 2];
    }
  }

  lemma {:induction false} CloseNameIsDepthOf(frames: seq<Frame>, tag: string)
    requires frames != []
    ensures var depth := DepthOf(frames, tag);
      CloseName(Names(frames), tag) == if depth == 0 then Names(frames) else Names(frames)[..depth - 1]
  {
    var path, n := Names(frames), |frames| - 1;
    if n > 0 {
      assert Names(frames[..n]) == path[..n - 1] && path[n - 1] == frames[n].tag;
      assert path == path[..n - 1] + [path[n - 1]];
      if frames[n].tag != tag {
        CloseNameIsDepthOf(frames[..n], tag);
      }
    }
  }

  lemma StepsOfNames(frames: seq<Frame>, tag: Tag)
    requires frames != []
    ensures Names(Step(frames, tag)) == StepNames(Names(frames), tag)
  {
    match tag
    case Close(name) =>
      CloseNameIsDepthOf(frames, name);
      if DepthOf(frames, name) > 0 { CloseToNames(frames, DepthOf(frames, name)); }
    case Open(_, _) =>
  }

  lemma AppendOutline(frames: seq<Frame>, tree: Tree)
    requires frames != []
    ensures OutlineFrames(Append(frames, tree)) == OutlineFrames(frames) + OutlineOne(tree, |frames| - 1)
  {
    var n := |frames| - 1;
    var kids := frames[n].kids + [tree];
    assert Append(frames, tree)[..n] == frames[..n] && kids[..|kids| - 1] == frames[n].kids;
    hide OutlineOne;
  }

  lemma CloseOneOutline(frames: seq<Frame>)
    requires |frames| > 1
    ensures OutlineFrames(CloseOne(frames)) == OutlineFrames(frames)
  {
    var n := |frames| - 1;
    AppendOutline(frames[..n], Tree(frames[n].tag, "", frames[n].kids));
    hide Append;
  }

  lemma {:induction false} CloseToOutline(frames: seq<Frame>, depth: nat)
    requires 1 <= depth <= |frames|
    ensures OutlineFrames(CloseTo(frames, depth)) == OutlineFrames(frames)
    decreases |frames|
  {
    hide OutlineFrames;
    if |frames| > depth {
      CloseOneOutline(frames);
      CloseToOutline(CloseOne(frames), depth);
    }
  }

  lemma PushedOutline(frames: seq<Frame>, name: string)
    requires frames != []
    ensures OutlineFrames(frames + [Frame(name, [])]) == OutlineFrames(frames) + [Entry(Label(name, ""), |frames| - 1)]
  {
    assert (frames + [Frame(name, [])])[..|frames|] == frames;
  }

  lemma StepOutline(frames: seq<Frame>, tag: Tag)
    requires frames != []
    ensures OutlineFrames(Step(frames, tag))
      == OutlineFrames(frames) + if tag.Open? then [Entry(Label(tag.name, tag.text), |frames| - 1)] else []
  {
    match tag
    case Close(name) =>
      if DepthOf(frames, name) > 0 { CloseToOutline(frames, DepthOf(frames, name)); }
    case Open(name, text) =>
      if text != "" {
        AppendOutline(frames, Tree(name, text, []));
        assert OutlineOne(Tree(name, text, []), |frames| - 1) == [Entry(Label(name, text), |frames| - 1)];
      } else {
        PushedOutline(frames, name);
      }
      hide OutlineFrames, OutlineOne, Append;
  }

  lemma {:induction false} StepsOutline(tags: seq<Tag>)
    ensures Names(Steps([ROOT], tags)) == NamesAfter([], tags)
    ensures OutlineFrames(Steps([ROOT], tags)) == OpenedAt([], tags)
  {
    if tags != [] {
      var n := |tags| - 1;
      StepsOutline(tags[..n]);
      var frames := Steps([ROOT], tags[..n]);
      StepsOfNames(frames, tags[n]);
      StepOutline(frames, tags[n]);
    }
  }

  /** On any tags, each element is as deep in the tree as there were groups open when it was. */
  lemma ParseIsItsOutline(tags: seq<Tag>)
    ensures Outline(Parse(tags).children, 0) == OpenedAt([], tags)
  {
    StepsOutline(tags);
    CloseToOutline(Steps([ROOT], tags), 1);
  }

  lemma {:induction false} OutlineIsDeeper(kids: seq<Tree>, depth: int)
    ensures forall i :: 0 <= i < |Outline(kids, depth)| ==> Outline(kids, depth)[i].depth >= depth
  {
    if kids != [] {
      var last := kids[|kids| - 1];
      OutlineIsDeeper(kids[..|kids| - 1], depth);
      OutlineIsDeeper(last.children, depth + 1);
      assert Outline(kids, depth) == Outline(kids[..|kids| - 1], depth) + OutlineOne(last, depth);
      hide Outline;
    }
  }

  lemma Split(x: seq<Entry>, inX: seq<Entry>, y: seq<Entry>, inY: seq<Entry>, p: Label, q: Label, depth: int)
    requires x + [Entry(p, depth)] + inX == y + [Entry(q, depth)] + inY
    requires forall i :: 0 <= i < |inX| ==> inX[i].depth > depth
    requires forall i :: 0 <= i < |inY| ==> inY[i].depth > depth
    ensures x == y && p == q && inX == inY
  {
    var all, all' := x + [Entry(p, depth)] + inX, y + [Entry(q, depth)] + inY;
    assert all[|x|] == Entry(p, depth) && all'[|y|] == Entry(q, depth);
    assert |x| == |y|;
    assert x == all[..|x|] && y == all'[..|y|] && inX == all[|x| + 1..] && inY == all'[|y| + 1..];
  }

  /** The last entry at a depth is the last element there. */
  lemma SameLastRoot(a: seq<Tree>, b: seq<Tree>, depth: int)
    requires a != [] && b != [] && Outline(a, depth) == Outline(b, depth)
    ensures var m, n := |a| - 1, |b| - 1;
      && Outline(a[..m], depth) == Outline(b[..n], depth)
      && a[m].tag == b[n].tag && a[m].text == b[n].text
      && Outline(a[m].children, depth + 1) == Outline(b[n].children, depth + 1)
  {
    var m, n := |a| - 1, |b| - 1;
    var x, y := Outline(a[..m], depth), Outline(b[..n], depth);
    var inA, inB := Outline(a[m].children, depth + 1), Outline(b[n].children, depth + 1);
    OutlineIsDeeper(a[m].children, depth + 1);
    OutlineIsDeeper(b[n].children, depth + 1);
    var all := Outline(a, depth);
    assert all == x + [Entry(Label(a[m].tag, a[m].text), depth)] + inA;
    assert all == y + [Entry(Label(b[n].tag, b[n].text), depth)] + inB;
    hide Outline;
    Split(x, inA, y, inB, Label(a[m].tag, a[m].text), Label(b[n].tag, b[n].text), depth);
  }

  /** A tree is its outline. */
  lemma {:induction false} OutlineTells(a: seq<Tree>, b: seq<Tree>, depth: int)
    requires Outline(a, depth) == Outline(b, depth)
    ensures a == b
    decreases a
  {
    if a != [] && b != [] {
      var m, n := |a| - 1, |b| - 1;
      SameLastRoot(a, b, depth);
      OutlineTells(a[..m], b[..n], depth);
      OutlineTells(a[m].children, b[n].children, depth + 1);
      assert a == a[..m] + [a[m]] && b == b[..n] + [b[n]];
    }
  }

  /** The groups open once part of an OFX 2 document is read, where those of `path` were. */
  function Left(path: seq<string>, kids: seq<Tree>): seq<string>
    decreases kids
  {
    if kids == [] then path else LeftOne(Left(path, kids[..|kids| - 1]), kids[|kids| - 1])
  }

  function LeftOne(path: seq<string>, tree: Tree): seq<string>
    decreases tree
  {
    CloseName(if tree.text != "" then path else Left(path + [tree.tag], tree.children), tree.tag)
  }

  /** Whatever comes before an element in its group leaves exactly the groups around it open. */
  predicate Readable(kids: seq<Tree>, path: seq<string>) {
    forall i {:trigger kids[i]} :: 0 <= i < |kids| ==>
      Left(path, kids[..i]) == path && (kids[i].text == "" ==> Readable(kids[i].children, path + [kids[i].tag]))
  }

  lemma {:induction false} LeftIsPart(path: seq<string>, kids: seq<Tree>)
    ensures Left(path, kids) <= path
    decreases kids
  {
    if kids != [] {
      var n := |kids| - 1;
      LeftIsPart(path, kids[..n]);
      LeftOneIsPart(Left(path, kids[..n]), kids[n]);
    }
  }

  lemma {:induction false} LeftOneIsPart(path: seq<string>, tree: Tree)
    ensures LeftOne(path, tree) <= path
    decreases tree
  {
    if tree.text == "" {
      var within := Left(path + [tree.tag], tree.children);
      LeftIsPart(path + [tree.tag], tree.children);
      var closed := CloseName(within, tree.tag);
      if within == path + [tree.tag] {
        assert closed == path;
      } else {
        assert |within| <= |path| && within == (path + [tree.tag])[..|within|] == path[..|within|];
      }
    }
  }

  lemma {:induction false} NamesCompose(path: seq<string>, a: seq<Tag>, b: seq<Tag>)
    ensures NamesAfter(path, a + b) == NamesAfter(NamesAfter(path, a), b)
    ensures OpenedAt(path, a + b) == OpenedAt(path, a) + OpenedAt(NamesAfter(path, a), b)
  {
    if b == [] {
      assert a + b == a;
    } else {
      hide StepNames;
      NamesCompose(path, a, b[..|b| - 1]);
      assert (a + b)[..|a + b| - 1] == a + b[..|b| - 1];
    }
  }

  lemma NamesOne(path: seq<string>, tag: Tag)
    ensures NamesAfter(path, [tag]) == StepNames(path, tag)
    ensures OpenedAt(path, [tag]) == if tag.Open? then [Entry(Label(tag.name, tag.text), |path|)] else []
  {
    assert [tag][..0] == [];
  }

  lemma RenderedOne(tree: Tree)
    ensures var inside := if tree.text != "" then [] else Render(tree.children, true);
      RenderOne(tree, true) == [Open(tree.tag, tree.text)] + inside + [Close(tree.tag)]
  {
    hide Render;
    if tree.text != "" {
      assert [Open(tree.tag, tree.text)] + [] == [Open(tree.tag, tree.text)];
    }
  }

  /** What is open after an element's tags, and how many groups were at each opening tag. */
  lemma NamesOfOne(path: seq<string>, tree: Tree)
    ensures var inside := if tree.text != "" then [] else Render(tree.children, true);
      var within := if tree.text != "" then path else path + [tree.tag];
      && NamesAfter(path, RenderOne(tree, true)) == CloseName(NamesAfter(within, inside), tree.tag)
      && OpenedAt(path, RenderOne(tree, true)) == [Entry(Label(tree.tag, tree.text), |path|)] + OpenedAt(within, inside)
  {
    var open, close := Open(tree.tag, tree.text), Close(tree.tag);
    var inside := if tree.text != "" then [] else Render(tree.children, true);
    hide Render, RenderOne, NamesAfter, OpenedAt, CloseName;
    RenderedOne(tree);
    NamesOne(path, open);
    NamesCompose(path, [open], inside);
    NamesCompose(path, [open] + inside, [close]);
    NamesOne(NamesAfter(path, [open] + inside), close);
  }

  lemma {:induction false} LeftIsNamesAfter(path: seq<string>, kids: seq<Tree>)
    ensures NamesAfter(path, Render(kids, true)) == Left(path, kids)
    decreases kids
  {
    if kids != [] {
      var n := |kids| - 1;
      var before := Left(path, kids[..n]);
      LeftIsNamesAfter(path, kids[..n]);
      NamesCompose(path, Render(kids[..n], true), RenderOne(kids[n], true));
      NamesOfOne(before, kids[n]);
      LeftIsNamesAfter(before + [kids[n].tag], kids[n].children);
    }
  }

  lemma {:induction false} AsManyElements(path: seq<string>, kids: seq<Tree>, depth: int)
    requires WellFormed(kids)
    ensures |OpenedAt(path, Render(kids, true))| == |Outline(kids, depth)|
    decreases kids
  {
    if kids != [] {
      var n := |kids| - 1;
      var before := NamesAfter(path, Render(kids[..n], true));
      AsManyElements(path, kids[..n], depth);
      NamesCompose(path, Render(kids[..n], true), RenderOne(kids[n], true));
      NamesOfOne(before, kids[n]);
      AsManyElements(before + [kids[n].tag], kids[n].children, depth + 1);
    }
  }

  lemma SameOneAfter(x: seq<Entry>, inX: seq<Entry>, y: seq<Entry>, inY: seq<Entry>, name: Label, i: int, j: int)
    requires |x| == |y|
    ensures x + ([Entry(name, i)] + inX) == y + ([Entry(name, j)] + inY) <==> x == y && i == j && inX == inY
  {
    var all, all' := x + ([Entry(name, i)] + inX), y + ([Entry(name, j)] + inY);
    if all == all' {
      assert x == all[..|x|] && y == all'[..|y|];
      assert all[|x|] == Entry(name, i) && all'[|y|] == Entry(name, j);
      assert inX == all[|x| + 1..] && inY == all'[|y| + 1..];
    }
  }

  /** The tags of the last element open where it belongs if those before it do and leave its own groups open. */
  lemma OpenedLast(path: seq<string>, kids: seq<Tree>)
    requires WellFormed(kids) && kids != []
    ensures var n := |kids| - 1;
      var last, before := kids[n], Left(path, kids[..n]);
      var inside := if last.text != "" then [] else Render(last.children, true);
      OpenedAt(path, Render(kids, true)) == Outline(kids, |path|)
      <==>
        && OpenedAt(path, Render(kids[..n], true)) == Outline(kids[..n], |path|) && |before| == |path|
        && Outline(last.children, |path| + 1)
           == OpenedAt(if last.text != "" then before else before + [last.tag], inside)
  {
    var n := |kids| - 1;
    var last, before := kids[n], Left(path, kids[..n]);
    var inside := if last.text != "" then [] else Render(last.children, true);
    var within := if last.text != "" then before else before + [last.tag];
    LeftIsNamesAfter(path, kids[..n]);
    NamesCompose(path, Render(kids[..n], true), RenderOne(last, true));
    NamesOfOne(before, last);
    AsManyElements(path, kids[..n], |path|);
    assert Render(kids, true) == Render(kids[..n], true) + RenderOne(last, true);
    assert Outline(kids, |path|) == Outline(kids[..n], |path|) + OutlineOne(last, |path|);
    hide Left, NamesAfter, RenderOne, OpenedAt, Outline, Render;
    SameOneAfter(OpenedAt(path, Render(kids[..n], true)), OpenedAt(within, inside),
      Outline(kids[..n], |path|), Outline(last.children, |path| + 1), Label(last.tag, last.text), |before|, |path|);
  }

  lemma ReadableLast(kids: seq<Tree>, path: seq<string>)
    requires kids != []
    ensures var n := |kids| - 1;
      Readable(kids, path) <==>
        && Readable(kids[..n], path) && Left(path, kids[..n]) == path
        && (kids[n].text == "" ==> Readable(kids[n].children, path + [kids[n].tag]))
  {
    hide Left;
    var n := |kids| - 1;
    forall i | 0 <= i < n
      ensures kids[..n][i] == kids[i] && kids[..n][..i] == kids[..i]
    {
    }
  }

  lemma ParsedIsRoot(tags: seq<Tag>)
    ensures Parse(tags) == Tree("", "", Parse(tags).children)
  {
  }

  lemma WellFormedLast(kids: seq<Tree>)
    requires kids != [] && WellFormed(kids)
    ensures var last := kids[|kids| - 1];
      WellFormed(kids[..|kids| - 1]) && WellFormed(last.children) && (last.text != "" ==> last.children == [])
  {
  }

  lemma NothingOpened(path: seq<string>)
    ensures OpenedAt(path, []) == [] && Outline([], |path|) == [] == Outline([], |path| + 1)
    ensures Render([], true) == [] && Readable([], path)
  {
  }

  /** Every element is opened where it belongs exactly when the document is readable. */
  lemma {:induction false} OpenedWhereItBelongs(path: seq<string>, kids: seq<Tree>)
    requires WellFormed(kids)
    ensures OpenedAt(path, Render(kids, true)) == Outline(kids, |path|) <==> Readable(kids, path)
    decreases kids
  {
    hide Readable, Left, NamesAfter, RenderOne, OpenedAt, Outline, Render, WellFormed;
    if kids != [] {
      var n := |kids| - 1;
      var last := kids[n];
      OpenedLast(path, kids);
      ReadableLast(kids, path);
      LeftIsPart(path, kids[..n]);
      WellFormedLast(kids);
      NothingOpened(path);
      NothingOpened(Left(path, kids[..n]));
      OpenedWhereItBelongs(path, kids[..n]);
      if Left(path, kids[..n]) == path && last.text == "" {
        OpenedWhereItBelongs(path + [last.tag], last.children);
      }
    } else {
      NothingOpened(path);
    }
  }

  /** An OFX 2 document reads back if and only if what comes before each element in its group, once
      read, leaves exactly the groups around it open. */
  lemma ReadsBackExactly(kids: seq<Tree>)
    requires WellFormed(kids)
    ensures Parse(Render(kids, true)) == Tree("", "", kids) <==> Readable(kids, [])
  {
    hide Parse, Readable, WellFormed;
    ParseIsItsOutline(Render(kids, true));
    OpenedWhereItBelongs([], kids);
    ParsedIsRoot(Render(kids, true));
    if Outline(Parse(Render(kids, true)).children, 0) == Outline(kids, 0) {
      OutlineTells(Parse(Render(kids, true)).children, kids, 0);
    }
  }

  /** So an element with another after it in its group closes nothing around it: a value's tag is
      that of no group it is in, and nothing at the end of a group closes more than that group. */
  lemma FollowedClosesNothing(kids: seq<Tree>, path: seq<string>, i: nat)
    requires Readable(kids, path) && i + 1 < |kids|
    ensures LeftOne(path, kids[i]) == path
    ensures kids[i].text != "" ==> kids[i].tag !in path
  {
    assert kids[i] in kids && kids[..i + 1][..i] == kids[..i] && Left(path, kids[..i]) == path;
    assert kids[i + 1] in kids && Left(path, kids[..i + 1]) == LeftOne(path, kids[i]);
  }

  // ---- The source's loop, over nodes linked in place ----

  class Node {
    const tag: string
    const text: string
    var children: seq<Node>

    constructor (tag: string, text: string)
      ensures this.tag == tag && this.text == text && children == []
    {
      this.tag, this.text, children := tag, text, [];
    }
  }

  /** A node and everything linked from it, all in `closed`, are this tree. */
  ghost predicate Shows(node: Node, tree: Tree, closed: set<Node>)
    reads closed
    decreases tree
  {
    && node in closed && node.tag == tree.tag && node.text == tree.text
    && |node.children| == |tree.children|
    && forall i :: 0 <= i < |tree.children| ==> Shows(node.children[i], tree.children[i], closed)
  }

  ghost function After(stack: seq<Node>, i: nat, linked: seq<Node>): seq<Node>
    requires i < |stack|
  {
    if i == |stack| - 1 then linked else [stack[i + 1]]
  }

  /** An open node has its frame's finished children and then these. */
  ghost predicate IsOpen(node: Node, frame: Frame, closed: set<Node>, linked: seq<Node>)
    reads closed, node
  {
    && node !in closed && node.tag == frame.tag && node.text == ""
    && |node.children| == |frame.kids| + |linked|
    && node.children[|frame.kids|..] == linked
    && forall k :: 0 <= k < |frame.kids| ==> Shows(node.children[k], frame.kids[k], closed)
  }

  /** The same while the innermost group has these nodes linked to it besides. */
  ghost predicate RepresentsWith(stack: seq<Node>, frames: seq<Frame>, closed: set<Node>, linked: seq<Node>)
    reads closed, stack
  {
    && |stack| == |frames| && stack != []
    && (forall i, j :: 0 <= i < j < |stack| ==> stack[i] != stack[j])
    && (forall i :: 0 <= i < |stack| ==> IsOpen(stack[i], frames[i], closed, After(stack, i, linked)))
  }

  /** The stack of open nodes is these frames: each node has its frame's finished children, and
      then the next node on the stack. */
  ghost predicate Represents(stack: seq<Node>, frames: seq<Frame>, closed: set<Node>)
    reads closed, stack
  {
    RepresentsWith(stack, frames, closed, [])
  }

  lemma {:induction false} ShowsStill(node: Node, tree: Tree, closed: set<Node>, more: set<Node>)
    requires Shows(node, tree, closed) && closed <= more
    ensures Shows(node, tree, more)
    decreases tree
  {
    forall i | 0 <= i < |tree.children|
      ensures Shows(node.children[i], tree.children[i], more)
    {
      ShowsStill(node.children[i], tree.children[i], closed, more);
    }
  }

  lemma OpenStill(node: Node, frame: Frame, closed: set<Node>, more: set<Node>, linked: seq<Node>)
    requires IsOpen(node, frame, closed, linked) && closed <= more && node !in more
    ensures IsOpen(node, frame, more, linked)
  {
    forall k | 0 <= k < |frame.kids|
      ensures Shows(node.children[k], frame.kids[k], more)
    {
      ShowsStill(node.children[k], frame.kids[k], closed, more);
    }
  }

  /** A node linked last that is finished is one more finished child. */
  lemma OpenWithOneMore(node: Node, frame: Frame, closed: set<Node>, child: Node, tree: Tree)
    requires IsOpen(node, frame, closed, [child]) && Shows(child, tree, closed)
    ensures IsOpen(node, Frame(frame.tag, frame.kids + [tree]), closed, [])
  {
    var kids := frame.kids + [tree];
    assert node.children[|frame.kids|..][0] == child;
    forall k | 0 <= k < |kids|
      ensures Shows(node.children[k], kids[k], closed)
    {
    }
  }

  lemma OpenNotClosed(node: Node, frame: Frame, closed: set<Node>, linked: seq<Node>)
    requires IsOpen(node, frame, closed, linked)
    ensures node !in closed && node.tag == frame.tag
  {
  }

  /** Once the node linked last to the innermost group is finished, so is its frame's last child. */
  lemma LinkedIsFinished(stack: seq<Node>, frames: seq<Frame>, closed: set<Node>, node: Node, tree: Tree)
    requires RepresentsWith(stack, frames, closed, [node]) && node !in stack
    requires Shows(node, tree, closed + {node})
    ensures Represents(stack, Append(frames, tree), closed + {node})
  {
    hide IsOpen, Shows;
    var n, more := |stack| - 1, closed + {node};
    forall i | 0 <= i < |stack|
      ensures IsOpen(stack[i], Append(frames, tree)[i], more, After(stack, i, []))
    {
      OpenNotClosed(stack[i], frames[i], closed, After(stack, i, [node]));
      OpenStill(stack[i], frames[i], closed, more, After(stack, i, [node]));
      if i == n {
        OpenWithOneMore(stack[n], frames[n], more, node, tree);
      }
    }
  }

  lemma TopShows(top: Node, frame: Frame, closed: set<Node>)
    requires IsOpen(top, frame, closed, [])
    ensures Shows(top, Tree(frame.tag, "", frame.kids), closed + {top})
  {
    forall k | 0 <= k < |frame.kids|
      ensures Shows(top.children[k], frame.kids[k], closed + {top})
    {
      ShowsStill(top.children[k], frame.kids[k], closed, closed + {top});
    }
  }

  /** Taking the top node off the stack closes the innermost group. */
  lemma PopCloses(stack: seq<Node>, frames: seq<Frame>, closed: set<Node>)
    requires Represents(stack, frames, closed) && |stack| > 1
    ensures Represents(stack[..|stack| - 1], CloseOne(frames), closed + {stack[|stack| - 1]})
  {
    var n := |stack| - 1;
    var top, rest := stack[n], stack[..n];
    hide IsOpen, Shows;
    assert IsOpen(top, frames[n], closed, After(stack, n, []));
    TopShows(top, frames[n], closed);
    forall i | 0 <= i < n
      ensures IsOpen(rest[i], frames[..n][i], closed, After(rest, i, [top]))
    {
      assert IsOpen(stack[i], frames[i], closed, After(stack, i, []));
    }
    LinkedIsFinished(rest, frames[..n], closed, top, Tree(frames[n].tag, "", frames[n].kids));
  }

  ghost function From(stack: seq<Node>, depth: nat): set<Node>
    requires depth <= |stack|
  {
    set node | node in stack[depth..]
  }

  lemma SameLength(stack: seq<Node>, frames: seq<Frame>, closed: set<Node>)
    requires Represents(stack, frames, closed)
    ensures |stack| == |frames| && stack != []
  {
  }

  lemma {:induction false} PopsClose(stack: seq<Node>, frames: seq<Frame>, closed: set<Node>, depth: nat)
    requires Represents(stack, frames, closed) && 1 <= depth <= |stack|
    ensures Represents(stack[..depth], CloseTo(frames, depth), closed + From(stack, depth))
    decreases |stack|
  {
    hide Represents;
    var n := |stack| - 1;
    if depth == |stack| {
      assert stack[..depth] == stack;
      assert closed + From(stack, depth) == closed;
      assert CloseTo(frames, depth) == frames by { SameLength(stack, frames, closed); }
    } else {
      SameLength(stack, frames, closed);
      PopCloses(stack, frames, closed);
      var popped, more := stack[..n], closed + {stack[n]};
      PopsClose(popped, CloseOne(frames), more, depth);
      assert popped[..depth] == stack[..depth];
      assert stack[depth..] == popped[depth..] + [stack[n]];
      assert more + From(popped, depth) == closed + From(stack, depth);
    }
  }

  method FindDepth(stack: seq<Node>, tag: string) returns (depth: nat)
    ensures depth < |stack| || depth == 0
    ensures depth > 0 ==> stack[depth].tag == tag
    ensures forall i :: depth < i < |stack| ==> i == 0 || stack[i].tag != tag
  {
    if stack == [] {
      return 0;
    }
    depth := |stack| - 1;
    while depth > 0
      invariant depth < |stack|
      invariant forall i :: depth < i < |stack| ==> stack[i].tag != tag
    {
      if stack[depth].tag == tag {
        return;
      }
      depth := depth - 1;
    }
  }

  method LinkTo(top: Node, node: Node, ghost frame: Frame, ghost closed: set<Node>)
    requires IsOpen(top, frame, closed, [])
    modifies top
    ensures IsOpen(top, frame, closed, [node])
  {
    top.children := top.children + [node];
  }

  /** Links a new node to the innermost open group. */
  method Attach(stack: seq<Node>, node: Node, ghost frames: seq<Frame>, ghost closed: set<Node>)
    requires Represents(stack, frames, closed)
    modifies stack[|stack| - 1]
    ensures RepresentsWith(stack, frames, closed, [node])
  {
    var n := |stack| - 1;
    var top := stack[n];
    assert IsOpen(top, frames[n], closed, After(stack, n, []));
    assert top !in closed;
    hide IsOpen, Shows;
    forall i | 0 <= i < n
      ensures IsOpen(stack[i], frames[i], closed, After(stack, i, [node]))
    {
      assert IsOpen(stack[i], frames[i], closed, After(stack, i, []));
    }
    LinkTo(top, node, frames[n], closed);
  }

  /** A value is finished as soon as it is linked. */
  lemma ValueLinked(stack: seq<Node>, frames: seq<Frame>, closed: set<Node>, node: Node)
    requires RepresentsWith(stack, frames, closed, [node])
    requires node !in stack && node.children == [] && node.text != ""
    ensures Represents(stack, Append(frames, Tree(node.tag, node.text, [])), closed + {node})
  {
    LinkedIsFinished(stack, frames, closed, node, Tree(node.tag, node.text, []));
  }

  /** A group is open once it is linked. */
  lemma GroupLinked(stack: seq<Node>, frames: seq<Frame>, closed: set<Node>, node: Node)
    requires RepresentsWith(stack, frames, closed, [node])
    requires node !in stack && node !in closed && node.children == [] && node.text == ""
    ensures Represents(stack + [node], frames + [Frame(node.tag, [])], closed)
  {
    var more, after := stack + [node], frames + [Frame(node.tag, [])];
    assert IsOpen(node, Frame(node.tag, []), closed, []);
    hide IsOpen;
    forall i | 0 <= i < |more|
      ensures IsOpen(more[i], after[i], closed, After(more, i, []))
    {
      if i < |stack| {
        assert IsOpen(stack[i], frames[i], closed, After(stack, i, [node]));
      }
    }
  }

  lemma DepthAgrees(stack: seq<Node>, frames: seq<Frame>, closed: set<Node>, tag: string, depth: nat)
    requires Represents(stack, frames, closed)
    requires depth < |stack| && (depth > 0 ==> stack[depth].tag == tag)
    requires forall i :: depth < i < |stack| ==> i == 0 || stack[i].tag != tag
    ensures depth == DepthOf(frames, tag) && |stack| == |frames|
  {
    forall i | 0 <= i < |stack|
      ensures stack[i].tag == frames[i].tag
    {
      OpenNotClosed(stack[i], frames[i], closed, After(stack, i, []));
    }
  }

  lemma OnlyTheRoot(stack: seq<Node>, frames: seq<Frame>, closed: set<Node>)
    requires |stack| == 1 && Represents(stack, frames, closed)
    ensures |frames| == 1 && IsOpen(stack[0], frames[0], closed, [])
  {
    hide IsOpen;
    assert IsOpen(stack[0], frames[0], closed, After(stack, 0, []));
  }

  /** At the end, closing what is left open leaves the root with everything. */
  lemma RootShows(stack: seq<Node>, frames: seq<Frame>, closed: set<Node>)
    requires stack != [] && frames != [] && Represents(stack, frames, closed) && stack[0].tag == ""
    ensures Shows(stack[0], Tree("", "", CloseTo(frames, 1)[0].kids), closed + From(stack, 0))
  {
    hide IsOpen, Shows, Represents, RepresentsWith, CloseTo;
    var more, last := closed + From(stack, 1), CloseTo(frames, 1);
    SameLength(stack, frames, closed);
    PopsClose(stack, frames, closed, 1);
    OnlyTheRoot(stack[..1], last, more);
    TopShows(stack[0], last[0], more);
    OpenNotClosed(stack[0], last[0], more, []);
    assert stack[0..] == [stack[0]] + stack[1..];
    assert closed + From(stack, 0) == more + {stack[0]};
  }

  /** One tag: closes open groups, or links a new node to those made so far. */
  method TakeTag(before: seq<Node>, tag: Tag, ghost frames: seq<Frame>, ghost known: set<Node>, ghost made: set<Node>)
    returns (stack: seq<Node>, ghost closed: set<Node>, ghost all: set<Node>)
    requires Represents(before, frames, known) && before != [] && frames != [] && known <= made &&
        From(before, 0) <= made
    modifies made
    ensures Represents(stack, Step(frames, tag), closed) && stack != [] && stack[0] == before[0]
    ensures closed <= all && From(stack, 0) <= all && made <= all && fresh(all - made)
  {
    hide Represents, RepresentsWith, Shows;
    stack, closed, all := before, known, made;
    SameLength(stack, frames, closed);
    match tag {
      case Close(name) =>
        var depth := FindDepth(stack, name);
        DepthAgrees(stack, frames, closed, name, depth);
        if depth > 0 {
          PopsClose(stack, frames, closed, depth);
          closed := closed + From(stack, depth);
          stack := stack[..depth];
        }
      case Open(name, text) =>
        var node := new Node(name, text);
        all := made + {node};
        assert stack[|stack| - 1] in From(stack, 0);
        Attach(stack, node, frames, closed);
        if text == "" {
          GroupLinked(stack, frames, closed, node);
          stack := stack + [node];
        } else {
          ValueLinked(stack, frames, closed, node);
          closed := closed + {node};
        }
    }
  }

  lemma ParseIs(tags: seq<Tag>)
    ensures Parse(tags) == Tree("", "", CloseTo(Steps([ROOT], tags), 1)[0].kids)
  {
  }

  lemma RootAlone(root: Node)
    requires root.tag == "" && root.text == "" && root.children == []
    ensures Represents([root], Steps([ROOT], []), {})
  {
    assert IsOpen(root, ROOT, {}, []);
  }

  lemma NextStep(tags: seq<Tag>, k: nat)
    requires k < |tags|
    ensures Steps([ROOT], tags[..k + 1]) == Step(Steps([ROOT], tags[..k]), tags[k])
  {
    assert tags[..k + 1][..k] == tags[..k];
  }

  method BuildTree(tags: seq<Tag>) returns (root: Node, ghost nodes: set<Node>)
    ensures fresh(nodes) && Shows(root, Parse(tags), nodes)
  {
    hide Represents, Step, Steps, Parse, Shows, CloseTo;
    root := new Node("", "");
    var stack := [root];
    ghost var closed, made: set<Node> := {}, {root};
    RootAlone(root);
    assert tags[..0] == [] && tags[..|tags|] == tags;
    for k := 0 to |tags|
      invariant Represents(stack, Steps([ROOT], tags[..k]), closed) && stack != [] && stack[0] == root
      invariant fresh(made) && closed <= made && From(stack, 0) <= made
    {
      NextStep(tags, k);
      stack, closed, made := TakeTag(stack, tags[k], Steps([ROOT], tags[..k]), closed, made);
    }
    RootShows(stack, Steps([ROOT], tags), closed);
    ParseIs(tags);
    nodes := closed + From(stack, 0);
  }
}
