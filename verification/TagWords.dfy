/** Tags as a word (xmlparse.c, doContent): when tags match, and what they describe when they do. */
module TagWords {
  import opened Bytes

  /** The name in a tag, byte for byte as it stands in the input. */
  type RawName = seq<Byte>

  datatype Tag = Open(name: RawName) | Close(name: RawName) | Single(name: RawName)

  datatype Event = Start(name: RawName) | End(name: RawName)

  /** `Ended` is the end of the outermost element, where the epilog processor takes over. */
  datatype Stage = Inside | Ended | TagMismatch | AsyncEntity

  datatype Progress = Progress(stage: Stage, names: seq<RawName>, events: seq<Event>)

  const BEGIN: Progress := Progress(Inside, [], [])

  /** Where an element ends: inside another one, or at the end of the outermost one. */
  function Behind(names: seq<RawName>): Stage {
    if names == [] then Ended else Inside
  }

  function Next(p: Progress, t: Tag): Progress {
    if !p.stage.Inside? then p
    else if t.Open? then Progress(Inside, p.names + [t.name], p.events + [Start(t.name)])
    else if t.Single? then Progress(Behind(p.names), p.names, p.events + [Start(t.name), End(t.name)])
    else if p.names == [] then p.(stage := AsyncEntity)
    else
      var outer := p.names[..|p.names| - 1];
      if p.names[|p.names| - 1] != t.name then Progress(TagMismatch, outer, p.events)
      else Progress(Behind(outer), outer, p.events + [End(t.name)])
  }

  /** The three ways an end tag can go. */
  lemma {:induction false} CloseStep(p: Progress, name: RawName)
    requires p.stage.Inside?
    ensures |p.names| == 0 ==> Next(p, Close(name)) == p.(stage := AsyncEntity)
    ensures |p.names| > 0 ==>
              var outer, top := p.names[..|p.names| - 1], p.names[|p.names| - 1];
              Next(p, Close(name)) ==
              if top != name then Progress(TagMismatch, outer, p.events)
              else Progress(if |outer| == 0 then Ended else Inside, outer, p.events + [End(name)])
  {
  }

  function Follow(p: Progress, ts: seq<Tag>): Progress {
    if |ts| == 0 then p else Next(Follow(p, ts[..|ts| - 1]), ts[|ts| - 1])
  }

  lemma {:induction false} FollowJoins(p: Progress, a: seq<Tag>, b: seq<Tag>)
    ensures Follow(p, a + b) == Follow(Follow(p, a), b)
    decreases |b|
  {
    if |b| == 0 {
      assert a + b == a;
    } else {
      assert (a + b)[..|a + b| - 1] == a + b[..|b| - 1];
      FollowJoins(p, a, b[..|b| - 1]);
    }
  }

  lemma {:induction false} StoppedStays(p: Progress, ts: seq<Tag>)
    requires !p.stage.Inside?
    ensures Follow(p, ts) == p
  {
    if |ts| > 0 {
      StoppedStays(p, ts[..|ts| - 1]);
    }
  }

  // ----- elements -----

  datatype Node = Element(name: RawName, content: seq<Node>) | EmptyElement(name: RawName)

  function Print(n: Node): seq<Tag>
    decreases n, 0
  {
    match n
    case EmptyElement(name) => [Single(name)]
    case Element(name, content) => [Open(name)] + PrintAll(content) + [Close(name)]
  }

  function PrintAll(ns: seq<Node>): seq<Tag>
    decreases ns, 1
  {
    if |ns| == 0 then [] else PrintAll(ns[..|ns| - 1]) + Print(ns[|ns| - 1])
  }

  /** What is reported for an element: every start with its end, properly nested. */
  function EventsOf(n: Node): seq<Event>
    decreases n, 0
  {
    match n
    case EmptyElement(name) => [Start(name), End(name)]
    case Element(name, content) => [Start(name)] + EventsOfAll(content) + [End(name)]
  }

  function EventsOfAll(ns: seq<Node>): seq<Event>
    decreases ns, 1
  {
    if |ns| == 0 then [] else EventsOfAll(ns[..|ns| - 1]) + EventsOf(ns[|ns| - 1])
  }

  /** The tags of an element are accepted, wherever it stands. */
  lemma {:induction false} NodeIsFollowed(p: Progress, n: Node)
    requires p.stage.Inside?
    ensures Follow(p, Print(n)) == Progress(Behind(p.names), p.names, p.events + EventsOf(n))
    decreases n, 0
  {
    match n
    case EmptyElement(name) =>
      assert Print(n)[..0] == [];
    case Element(name, content) =>
      var q := Next(p, Open(name));
      OneFollowed(p, Open(name));
      NodesAreFollowed(q, content);
      var r := Follow(q, PrintAll(content));
      OneFollowed(r, Close(name));
      FollowJoins(p, [Open(name)], PrintAll(content));
      FollowJoins(p, [Open(name)] + PrintAll(content), [Close(name)]);
      assert r.names[..|r.names| - 1] == p.names;
      assert r.events + [End(name)] == p.events + EventsOf(n);
  }

  lemma {:induction false} FollowNothing(p: Progress)
    ensures Follow(p, []) == p
  {
  }

  lemma {:induction false} OneFollowed(p: Progress, t: Tag)
    ensures Follow(p, [t]) == Next(p, t)
  {
    assert [t][..0] == [];
  }

  lemma {:induction false} NodesAreFollowed(p: Progress, ns: seq<Node>)
    requires p.stage.Inside? && p.names != []
    ensures Follow(p, PrintAll(ns)) == Progress(Inside, p.names, p.events + EventsOfAll(ns))
    decreases ns, 1
  {
    hide Follow;
    hide Next;
    hide Print;
    hide EventsOf;
    if |ns| == 0 {
      FollowNothing(p);
      assert p.events + EventsOfAll(ns) == p.events;
    } else {
      var before, n := ns[..|ns| - 1], ns[|ns| - 1];
      NodesAreFollowed(p, before);
      var q := Follow(p, PrintAll(before));
      NodeIsFollowed(q, n);
      FollowJoins(p, PrintAll(before), Print(n));
      assert q.events + EventsOf(n) == p.events + EventsOfAll(ns);
    }
  }

  // ----- open elements -----

  /** An open element with the part of its content that is complete. */
  datatype Frame = Frame(name: RawName, content: seq<Node>)

  function PrintFrames(fs: seq<Frame>): seq<Tag> {
    if |fs| == 0 then [] else PrintFrames(fs[..|fs| - 1]) + ([Open(fs[|fs| - 1].name)] + PrintAll(fs[|fs| - 1].content))
  }

  function EventsOfFrames(fs: seq<Frame>): seq<Event> {
    if |fs| == 0 then []
    else EventsOfFrames(fs[..|fs| - 1]) + ([Start(fs[|fs| - 1].name)] + EventsOfAll(fs[|fs| - 1].content))
  }

  function Names(fs: seq<Frame>): (names: seq<RawName>)
    ensures |names| == |fs|
  {
    seq(|fs|, i requires 0 <= i < |fs| => fs[i].name)
  }

  function ProgressOf(fs: seq<Frame>): Progress {
    Progress(Inside, Names(fs), EventsOfFrames(fs))
  }

  /** The tags of open elements are accepted as far as they go. */
  lemma {:induction false} FramesAreFollowed(fs: seq<Frame>)
    ensures Follow(BEGIN, PrintFrames(fs)) == ProgressOf(fs)
  {
    hide Follow;
    hide PrintAll;
    hide EventsOfAll;
    if |fs| == 0 {
      FollowNothing(BEGIN);
      assert ProgressOf(fs) == BEGIN;
    } else {
      var outer, f := fs[..|fs| - 1], fs[|fs| - 1];
      FramesAreFollowed(outer);
      var p := ProgressOf(outer);
      OneFollowed(p, Open(f.name));
      var q := Next(p, Open(f.name));
      NodesAreFollowed(q, f.content);
      FollowJoins(p, [Open(f.name)], PrintAll(f.content));
      FollowJoins(BEGIN, PrintFrames(outer), [Open(f.name)] + PrintAll(f.content));
      assert q.names == Names(fs);
      assert q.events + EventsOfAll(f.content) == EventsOfFrames(fs);
    }
  }

  /** One more complete element in the innermost open one. */
  function AddNode(fs: seq<Frame>, n: Node): seq<Frame>
    requires fs != []
  {
    var f := fs[|fs| - 1];
    fs[..|fs| - 1] + [Frame(f.name, f.content + [n])]
  }

  lemma {:induction false} NodeAdded(fs: seq<Frame>, n: Node)
    requires fs != []
    ensures PrintFrames(AddNode(fs, n)) == PrintFrames(fs) + Print(n)
  {
    var f, gs := fs[|fs| - 1], AddNode(fs, n);
    var content := f.content + [n];
    assert gs[..|gs| - 1] == fs[..|fs| - 1];
    assert content[..|content| - 1] == f.content;
    assert PrintAll(content) == PrintAll(f.content) + Print(n);
  }

  lemma {:induction false} FrameOpened(fs: seq<Frame>, name: RawName)
    ensures PrintFrames(fs + [Frame(name, [])]) == PrintFrames(fs) + [Open(name)]
  {
    var gs := fs + [Frame(name, [])];
    assert gs[..|gs| - 1] == fs;
    assert PrintAll([]) == [];
  }

  /** Closing the innermost element: it is complete, and the tags are those printed for it. */
  lemma {:induction false} FrameClosed(fs: seq<Frame>)
    requires fs != []
    ensures var outer, f := fs[..|fs| - 1], fs[|fs| - 1];
            PrintFrames(fs) + [Close(f.name)] == PrintFrames(outer) + Print(Element(f.name, f.content))
  {
  }

  /** The first k tags are those of one element. */
  predicate IsElement(ts: seq<Tag>, k: nat, n: Node) {
    k <= |ts| && ts[..k] == Print(n)
  }

  /** Inside the elements fs, tag k closes another name than the innermost one. */
  predicate Mismatched(ts: seq<Tag>, k: nat, fs: seq<Frame>) {
    && k < |ts| && ts[..k] == PrintFrames(fs) && fs != []
    && ts[k].Close? && ts[k].name != fs[|fs| - 1].name
  }

  /** What the progress says about the tags read so far. */
  ghost predicate Explained(ts: seq<Tag>, p: Progress) {
    match p.stage
    case Inside => exists fs :: ts == PrintFrames(fs) && p == ProgressOf(fs)
    case Ended => exists k: nat, n :: IsElement(ts, k, n) && p.events == EventsOf(n)
    case TagMismatch => exists k: nat, fs :: Mismatched(ts, k, fs) && p.events == EventsOfFrames(fs)
    case AsyncEntity => |ts| > 0 && ts[0].Close?
  }

  /** One more complete element, at the outermost level or inside another one. */
  lemma {:induction false} NodeExplained(ts: seq<Tag>, fs: seq<Frame>, n: Node)
    requires ts == PrintFrames(fs) + Print(n)
    ensures Explained(ts, Follow(BEGIN, ts))
  {
    if fs == [] {
      assert ts == Print(n) && ts[..|ts|] == ts;
      NodeIsFollowed(BEGIN, n);
      assert IsElement(ts, |ts|, n);
    } else {
      NodeAdded(fs, n);
      FramesAreFollowed(AddNode(fs, n));
    }
  }

  lemma {:induction false} TagExplained(ts: seq<Tag>, fs: seq<Frame>, t: Tag)
    requires ts == PrintFrames(fs)
    ensures Explained(ts + [t], Follow(BEGIN, ts + [t]))
  {
    var more := ts + [t];
    FramesAreFollowed(fs);
    FollowJoins(BEGIN, ts, [t]);
    OneFollowed(ProgressOf(fs), t);
    assert more[..|ts|] == ts;
    if t.Open? {
      FrameOpened(fs, t.name);
      FramesAreFollowed(fs + [Frame(t.name, [])]);
    } else if t.Single? {
      assert Print(EmptyElement(t.name)) == [t];
      NodeExplained(more, fs, EmptyElement(t.name));
    } else if fs == [] {
      assert more[0] == t;
    } else if fs[|fs| - 1].name == t.name {
      FrameClosed(fs);
      NodeExplained(more, fs[..|fs| - 1], Element(t.name, fs[|fs| - 1].content));
    } else {
      assert Mismatched(more, |ts|, fs);
    }
  }

  lemma {:induction false} StaysExplained(ts: seq<Tag>, p: Progress, t: Tag)
    requires Explained(ts, p) && !p.stage.Inside?
    ensures Explained(ts + [t], p)
  {
    var more := ts + [t];
    if p.stage.Ended? {
      var k: nat, n :| IsElement(ts, k, n) && p.events == EventsOf(n);
      assert more[..k] == ts[..k];
      assert IsElement(more, k, n);
    } else if p.stage.TagMismatch? {
      var k: nat, fs :| Mismatched(ts, k, fs) && p.events == EventsOfFrames(fs);
      assert more[..k] == ts[..k];
      assert Mismatched(more, k, fs);
    }
  }

  lemma {:induction false} RunIsExplained(ts: seq<Tag>)
    ensures Explained(ts, Follow(BEGIN, ts))
  {
    if |ts| == 0 {
      assert PrintFrames([]) == ts && ProgressOf([]) == BEGIN;
    } else {
      var before, t := ts[..|ts| - 1], ts[|ts| - 1];
      RunIsExplained(before);
      var p := Follow(BEGIN, before);
      assert before + [t] == ts;
      if p.stage.Inside? {
        var fs :| before == PrintFrames(fs) && p == ProgressOf(fs);
        TagExplained(before, fs, t);
      } else {
        StaysExplained(before, p, t);
      }
    }
  }

  // ----- exactly -----

  /** A prefix decides once the run has stopped behind it. */
  lemma {:induction false} PrefixDecides(ts: seq<Tag>, k: nat)
    requires k <= |ts| && !Follow(BEGIN, ts[..k]).stage.Inside?
    ensures Follow(BEGIN, ts) == Follow(BEGIN, ts[..k])
  {
    assert ts[..k] + ts[k..] == ts;
    FollowJoins(BEGIN, ts[..k], ts[k..]);
    StoppedStays(Follow(BEGIN, ts[..k]), ts[k..]);
  }

  /**
   * The outermost element ends exactly when the tags begin with those of an element; what has been
   * reported then is that element: every start with an end of the same name, properly nested.
   */
  lemma {:induction false} EndsExactly(ts: seq<Tag>)
    ensures Follow(BEGIN, ts).stage.Ended? <==> exists k: nat, n :: IsElement(ts, k, n)
    ensures forall k: nat, n :: IsElement(ts, k, n) ==> Follow(BEGIN, ts) == Progress(Ended, [], EventsOf(n))
  {
    RunIsExplained(ts);
    forall k: nat, n | IsElement(ts, k, n) ensures Follow(BEGIN, ts) == Progress(Ended, [], EventsOf(n)) {
      NodeIsFollowed(BEGIN, n);
      PrefixDecides(ts, k);
    }
  }

  lemma {:induction false} MismatchIsFound(ts: seq<Tag>, k: nat, fs: seq<Frame>)
    requires Mismatched(ts, k, fs)
    ensures Follow(BEGIN, ts).stage.TagMismatch?
  {
    hide Follow;
    hide PrintFrames;
    hide EventsOfFrames;
    FramesAreFollowed(fs);
    var more := ts[..k + 1];
    assert more == ts[..k] + [ts[k]];
    FollowJoins(BEGIN, ts[..k], [ts[k]]);
    OneFollowed(ProgressOf(fs), ts[k]);
    PrefixDecides(ts, k + 1);
  }

  /** A mismatch is found exactly when a tag closes another name than the innermost open one. */
  lemma {:induction false} MismatchesExactly(ts: seq<Tag>)
    ensures Follow(BEGIN, ts).stage.TagMismatch? <==> exists k: nat, fs :: Mismatched(ts, k, fs)
  {
    hide Follow;
    hide Mismatched;
    RunIsExplained(ts);
    forall k: nat, fs | Mismatched(ts, k, fs) ensures Follow(BEGIN, ts).stage.TagMismatch? {
      MismatchIsFound(ts, k, fs);
    }
  }
}
