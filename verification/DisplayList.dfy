/** The guest's display list: a tree of groups flattened once, then drawn with a stack of saved states. */
module DisplayList {
  import opened Options

  // ---------------------------------------------------------------- the tree

  /** A segment in canvas space; the transform of its points is not part of this model. */
  type Segment = int
  type Path = seq<Segment>

  datatype FillRule = NonZero | EvenOdd

  datatype Source = Solid(rgb: int) | Gradient(stops: int) | Pattern

  datatype Fill = Fill(source: Source, opacity: real, rule: FillRule)

  datatype Stroke = Stroke(source: Source, opacity: real, line: int)

  datatype Shape = Shape(visible: bool, path: Path, fill: Option<Fill>, stroke: Option<Stroke>)

  /** A child of a clip path: a path with the rule of its fill, if it has one, or something that is ignored. */
  datatype ClipChild = ClipShape(path: Path, rule: Option<FillRule>) | ClipOther

  datatype Group = Group(opacity: real, clip: Option<seq<ClipChild>>, children: seq<Node>)

  datatype Node = GroupNode(group: Group) | ShapeNode(shape: Shape) | OtherNode

  // ---------------------------------------------------------------- the list

  datatype Paint =
    | FillPaint(source: Source, alpha: real, rule: FillRule)
    | StrokePaint(source: Source, alpha: real, line: int)

  datatype Clip = Clip(path: Path, rule: FillRule)

  datatype Item = DrawItem(path: Path, fill: Option<Paint>, stroke: Option<Paint>) | ClipItem(clip: Clip) | RestoreItem

  /** Patterns are not painted. */
  function FillOf(s: Shape, opacity: real): Option<Paint> {
    if s.fill.None? || s.fill.value.source.Pattern? then None
    else Some(FillPaint(s.fill.value.source, Times(s.fill.value.opacity, opacity), s.fill.value.rule))
  }

  function StrokeOf(s: Shape, opacity: real): Option<Paint> {
    if s.stroke.None? || s.stroke.value.source.Pattern? then None
    else Some(StrokePaint(s.stroke.value.source, Times(s.stroke.value.opacity, opacity), s.stroke.value.line))
  }

  /** The paths of a clip merged into one, under the even-odd rule if any of them asks for it. */
  function Merged(children: seq<ClipChild>): Clip {
    if children == [] then Clip([], NonZero) else
    var front, last := Merged(children[..|children|-1]), children[|children|-1];
    match last
    case ClipOther => front
    case ClipShape(path, rule) => Clip(front.path + path, if rule == Some(EvenOdd) then EvenOdd else front.rule)
  }

  function ClipsOf(g: Group): seq<Clip> { if g.clip.Some? then [Merged(g.clip.value)] else [] }

  function Times(a: real, b: real): real { a * b }

  function Flattened(g: Group, above: real): seq<Item>
    decreases g, 0
  {
    var inner := FlattenedAll(g.children, Times(above, g.opacity));
    if g.clip.Some? then [ClipItem(Merged(g.clip.value))] + inner + [RestoreItem] else inner
  }

  function FlattenedAll(nodes: seq<Node>, opacity: real): seq<Item>
    decreases nodes
  {
    if nodes == [] then [] else FlattenedNode(nodes[0], opacity) + FlattenedAll(nodes[1..], opacity)
  }

  function FlattenedNode(node: Node, opacity: real): seq<Item>
    decreases node
  {
    match node
    case GroupNode(g) => Flattened(g, opacity)
    case ShapeNode(s) =>
      if s.visible && (FillOf(s, opacity).Some? || StrokeOf(s, opacity).Some?)
      then [DrawItem(s.path, FillOf(s, opacity), StrokeOf(s, opacity))] else []
    case OtherNode => []
  }

  /** Segments seen on the way: of every visible shape, drawn or not, and of every clip. */
  function Segments(g: Group): nat
    decreases g, 0
  {
    (if g.clip.Some? then |Merged(g.clip.value).path| else 0) + SegmentsAll(g.children)
  }

  function SegmentsAll(nodes: seq<Node>): nat
    decreases nodes
  {
    if nodes == [] then 0 else SegmentsNode(nodes[0]) + SegmentsAll(nodes[1..])
  }

  function SegmentsNode(node: Node): nat
    decreases node
  {
    match node
    case GroupNode(g) => Segments(g)
    case ShapeNode(s) => if s.visible then |s.path| else 0
    case OtherNode => 0
  }

  class Scene {
    var items: seq<Item>
    var segments: nat

    constructor ()
      ensures items == [] && segments == 0
    {
      items, segments := [], 0;
    }

    method ClipGeometry(children: seq<ClipChild>) returns (clip: Clip)
      modifies this`segments
      ensures clip == Merged(children)
      ensures segments == old(segments) + |clip.path|
    {
      var path: Path, rule := [], NonZero;
      for i := 0 to |children|
        invariant Clip(path, rule) == Merged(children[..i])
        invariant segments == old(segments) + |path|
      {
        assert children[..i+1][..i] == children[..i];
        if children[i].ClipShape? {
          path := path + children[i].path;
          segments := segments + |children[i].path|;
          if children[i].rule == Some(EvenOdd) { rule := EvenOdd; }
        }
      }
      assert children[..|children|] == children;
      clip := Clip(path, rule);
    }

    method Walk(g: Group, above: real)
      modifies this
      ensures items == old(items) + Flattened(g, above)
      ensures segments == old(segments) + Segments(g)
      decreases g, 0
    {
      var opacity := above * g.opacity;
      assert opacity == Times(above, g.opacity);
      if g.clip.Some? {
        var clip := ClipGeometry(g.clip.value);
        items := items + [ClipItem(clip)];
      }
      ghost var (items0, segments0) := (items, segments);
      for i := 0 to |g.children|
        invariant items + FlattenedAll(g.children[i..], opacity) == items0 + FlattenedAll(g.children, opacity)
        invariant segments + SegmentsAll(g.children[i..]) == segments0 + SegmentsAll(g.children)
      {
        assert g.children[i..][1..] == g.children[i+1..];
        WalkNode(g.children[i], opacity);
      }
      assert g.children[|g.children|..] == [];
      assert items == items0 + FlattenedAll(g.children, opacity);
      if g.clip.Some? {
        items := items + [RestoreItem];
      }
    }

    method WalkNode(node: Node, opacity: real)
      modifies this
      ensures items == old(items) + FlattenedNode(node, opacity)
      ensures segments == old(segments) + SegmentsNode(node)
      decreases node
    {
      match node
      case GroupNode(g) => Walk(g, opacity);
      case ShapeNode(s) =>
        if s.visible {
          segments := segments + |s.path|;
          var fill: Option<Paint>, stroke: Option<Paint> := None, None;
          if s.fill.Some? && !s.fill.value.source.Pattern? {
            var alpha := s.fill.value.opacity * opacity;
            assert alpha == Times(s.fill.value.opacity, opacity);
            fill := Some(FillPaint(s.fill.value.source, alpha, s.fill.value.rule));
          }
          if s.stroke.Some? && !s.stroke.value.source.Pattern? {
            var alpha := s.stroke.value.opacity * opacity;
            assert alpha == Times(s.stroke.value.opacity, opacity);
            stroke := Some(StrokePaint(s.stroke.value.source, alpha, s.stroke.value.line));
          }
          if fill.Some? || stroke.Some? {
            items := items + [DrawItem(s.path, fill, stroke)];
          }
        }
      case OtherNode =>
    }
  }

  // ---------------------------------------------------------------- the canvas

  datatype Move = Translate(x: real, y: real) | Scale(x: real, y: real)

  datatype State = State(view: seq<Move>, clips: seq<Clip>)

  const INITIAL := State([], [])

  datatype Mark = Cleared | Painted(path: Path, paint: Paint, under: State)

  /** What a canvas holds: its state, the states saved, and what has been drawn. */
  datatype Sheet = Sheet(state: State, saved: seq<State>, marks: seq<Mark>)

  function Paints(path: Path, paint: Option<Paint>, under: State): seq<Mark> {
    if paint.Some? then [Painted(path, paint.value, under)] else []
  }

  function Clipped(state: State, clips: seq<Clip>): State { state.(clips := state.clips + clips) }

  /** Restoring with nothing saved resets the state. */
  function Restored(c: Sheet): Sheet {
    if c.saved == [] then c.(state := INITIAL)
    else c.(state := c.saved[|c.saved|-1], saved := c.saved[..|c.saved|-1])
  }

  function Do(c: Sheet, item: Item): Sheet {
    match item
    case DrawItem(path, fill, stroke) =>
      c.(marks := c.marks + Paints(path, fill, c.state) + Paints(path, stroke, c.state))
    case ClipItem(clip) => c.(saved := c.saved + [c.state], state := Clipped(c.state, [clip]))
    case RestoreItem => Restored(c)
  }

  function Run(c: Sheet, items: seq<Item>): Sheet
    decreases items
  {
    if items == [] then c else Run(Do(c, items[0]), items[1..])
  }

  class Canvas {
    var state: State
    var saved: seq<State>
    var marks: seq<Mark>

    constructor ()
      ensures Value() == Sheet(INITIAL, [], [])
    {
      state, saved, marks := INITIAL, [], [];
    }

    function Value(): Sheet
      reads this
    {
      Sheet(state, saved, marks)
    }

    method Save()
      modifies this`saved
      ensures saved == old(saved) + [state]
    {
      saved := saved + [state];
    }

    method Restore()
      modifies this`state, this`saved
      ensures Value() == Restored(old(Value()))
    {
      if saved == [] {
        state := INITIAL;
      } else {
        state, saved := saved[|saved|-1], saved[..|saved|-1];
      }
    }

    method ClipPath(clip: Clip)
      modifies this`state
      ensures state == Clipped(old(state), [clip])
    {
      state := state.(clips := state.clips + [clip]);
    }

    method Paint(path: Path, paint: Paint)
      modifies this`marks
      ensures marks == old(marks) + [Painted(path, paint, state)]
    {
      marks := marks + [Painted(path, paint, state)];
    }

    method Transform(move: Move)
      modifies this`state
      ensures state == old(state).(view := old(state).view + [move])
    {
      state := state.(view := state.view + [move]);
    }

    /** One frame: the list is drawn under the frame's own view, on a cleared canvas. */
    method DrawFrame(scene: Scene, w: real, h: real, width: real, height: real, fit: real)
      modifies this
      ensures Value() == Frame(old(Value()), scene.items, View(w, h, width, height, fit))
    {
      state := INITIAL;
      marks := marks + [Cleared];
      Save();
      Transform(Translate(w * 0.5, h * 0.5));
      Transform(Scale(fit, fit));
      Transform(Translate(-width * 0.5, -height * 0.5));
      assert state == View(w, h, width, height, fit);
      ghost var start := Value();
      var items := scene.items;
      for i := 0 to |items|
        invariant Run(Value(), items[i..]) == Run(start, items)
      {
        assert items[i..][1..] == items[i+1..];
        ghost var before := Value();
        match items[i] {
          case DrawItem(path, fill, stroke) =>
            if fill.Some? { Paint(path, fill.value); }
            assert marks == before.marks + Paints(path, fill, state);
            if stroke.Some? { Paint(path, stroke.value); }
            assert marks == before.marks + Paints(path, fill, state) + Paints(path, stroke, state);
          case ClipItem(clip) =>
            Save();
            ClipPath(clip);
          case RestoreItem =>
            Restore();
        }
        assert Value() == Do(before, items[i]);
      }
      assert items[|items|..] == [];
      Restore();
    }
  }

  /** A frame drawn under a view, between the outermost save and restore. */
  function Frame(c: Sheet, items: seq<Item>, view: State): Sheet {
    Restored(Run(Sheet(view, c.saved + [INITIAL], c.marks + [Cleared]), items))
  }

  /** A frame of a flattened tree is the tree drawn directly, and the stack is as deep as it was. */
  lemma FrameDrawsTheTree(root: Group, c: Sheet, view: State)
    ensures Frame(c, Flattened(root, 1.0), view)
        == Sheet(INITIAL, c.saved, c.marks + [Cleared] + Rendered(root, 1.0, view))
  {
    DrawsTheTree(root, 1.0, Sheet(view, c.saved + [INITIAL], c.marks + [Cleared]));
  }

  function View(w: real, h: real, width: real, height: real, fit: real): State {
    State([Translate(w * 0.5, h * 0.5), Scale(fit, fit), Translate(-width * 0.5, -height * 0.5)], [])
  }

  // ---------------------------------------------------------------- drawing the tree itself

  function Rendered(g: Group, above: real, under: State): seq<Mark>
    decreases g, 0
  {
    RenderedAll(g.children, Times(above, g.opacity), Clipped(under, ClipsOf(g)))
  }

  function RenderedAll(nodes: seq<Node>, opacity: real, under: State): seq<Mark>
    decreases nodes
  {
    if nodes == [] then [] else RenderedNode(nodes[0], opacity, under) + RenderedAll(nodes[1..], opacity, under)
  }

  function RenderedNode(node: Node, opacity: real, under: State): seq<Mark>
    decreases node
  {
    match node
    case GroupNode(g) => Rendered(g, opacity, under)
    case ShapeNode(s) => ShapeMarks(s, opacity, under)
    case OtherNode => []
  }

  /** A visible shape is filled, then stroked. */
  function ShapeMarks(s: Shape, opacity: real, under: State): seq<Mark> {
    if s.visible then Paints(s.path, FillOf(s, opacity), under) + Paints(s.path, StrokeOf(s, opacity), under) else []
  }

  function Drawn(c: Sheet, marks: seq<Mark>): Sheet { c.(marks := c.marks + marks) }

  lemma {:induction false} RunJoins(c: Sheet, a: seq<Item>, b: seq<Item>)
    ensures Run(c, a + b) == Run(Run(c, a), b)
    decreases a
  {
    hide Do;
    if a == [] {
      assert a + b == b;
    } else {
      RunJoins(Do(c, a[0]), a[1..], b);
      assert (a + b)[1..] == a[1..] + b;
    }
  }

  lemma RunOne(c: Sheet, item: Item)
    ensures Run(c, [item]) == Do(c, item)
  {
    assert [item][1..] == [];
  }

  /** The stack machine on the list draws what the recursion on the tree draws, and leaves the stack as it was. */
  lemma {:induction false} DrawsTheTree(g: Group, above: real, c: Sheet)
    ensures Run(c, Flattened(g, above)) == Drawn(c, Rendered(g, above, c.state))
    decreases g, 0
  {
    var opacity := Times(above, g.opacity);
    var inner := FlattenedAll(g.children, opacity);
    if g.clip.Some? {
      var clip := Merged(g.clip.value);
      var c1 := Do(c, ClipItem(clip));
      RunOne(c, ClipItem(clip));
      DrawsAll(g.children, opacity, c1);
      RunJoins(c, [ClipItem(clip)], inner);
      RunOne(Run(c1, inner), RestoreItem);
      RunJoins(c, [ClipItem(clip)] + inner, [RestoreItem]);
    } else {
      DrawsAll(g.children, opacity, c);
      assert c.state == Clipped(c.state, []);
      assert Flattened(g, above) == inner;
    }
  }

  lemma {:induction false} DrawsAll(nodes: seq<Node>, opacity: real, c: Sheet)
    ensures Run(c, FlattenedAll(nodes, opacity)) == Drawn(c, RenderedAll(nodes, opacity, c.state))
    decreases nodes
  {
    if nodes != [] {
      var first := FlattenedNode(nodes[0], opacity);
      DrawsNode(nodes[0], opacity, c);
      DrawsAll(nodes[1..], opacity, Run(c, first));
      RunJoins(c, first, FlattenedAll(nodes[1..], opacity));
    }
  }

  lemma {:induction false} DrawsNode(node: Node, opacity: real, c: Sheet)
    ensures Run(c, FlattenedNode(node, opacity)) == Drawn(c, RenderedNode(node, opacity, c.state))
    decreases node
  {
    match node
    case GroupNode(g) => DrawsTheTree(g, opacity, c);
    case ShapeNode(s) => RunOne(c, DrawItem(s.path, FillOf(s, opacity), StrokeOf(s, opacity)));
    case OtherNode =>
  }

  // ---------------------------------------------------------------- which shapes are drawn, and under what

  /** The groups from g down to the parent of the node at path. */
  function GroupsAlong(g: Group, path: seq<nat>): seq<Group>
    decreases |path|
  {
    if |path| > 1 && path[0] < |g.children| && g.children[path[0]].GroupNode?
    then [g] + GroupsAlong(g.children[path[0]].group, path[1..]) else [g]
  }

  function ShapeAt(g: Group, path: seq<nat>): Option<Shape>
    decreases |path|
  {
    if path == [] || path[0] >= |g.children| then None else
    match g.children[path[0]]
    case GroupNode(inner) => ShapeAt(inner, path[1..])
    case ShapeNode(s) => if |path| == 1 then Some(s) else None
    case OtherNode => None
  }

  function AllClips(gs: seq<Group>): seq<Clip> {
    if gs == [] then [] else ClipsOf(gs[0]) + AllClips(gs[1..])
  }

  function Opacity(above: real, gs: seq<Group>): real
    decreases gs
  {
    if gs == [] then above else Opacity(Times(above, gs[0].opacity), gs[1..])
  }

  /** A mark that the shape at path makes, under the clips of all its groups. */
  predicate MadeAt(g: Group, above: real, under: State, path: seq<nat>, mark: Mark) {
    var gs := GroupsAlong(g, path);
    ShapeAt(g, path).Some?
        && mark in ShapeMarks(ShapeAt(g, path).value, Opacity(above, gs), Clipped(under, AllClips(gs)))
  }

  lemma MarksAreMadeSomewhere(g: Group, above: real, under: State, mark: Mark)
    ensures mark in Rendered(g, above, under) <==> exists path :: MadeAt(g, above, under, path, mark)
  {
    if mark in Rendered(g, above, under) {
      var path := Maker(g, above, under, mark);
    }
    forall path | MadeAt(g, above, under, path, mark) ensures mark in Rendered(g, above, under) {
      MadeIsRendered(g, above, under, path, mark);
    }
  }

  /** The opacities of the groups, multiplied. */
  function OpacityOf(gs: seq<Group>): real {
    if gs == [] then 1.0 else gs[0].opacity * OpacityOf(gs[1..])
  }

  lemma {:induction false} OpacityIs(above: real, gs: seq<Group>)
    ensures Opacity(above, gs) == above * OpacityOf(gs)
    decreases gs
  {
    if gs != [] {
      OpacityIs(Times(above, gs[0].opacity), gs[1..]);
      ThreeFactors(above, gs[0].opacity, OpacityOf(gs[1..]));
    }
  }

  lemma ThreeFactors(x: real, y: real, z: real)
    ensures Times(x, y) * z == x * (y * z)
  {
  }

  /** The mark is the fill of the visible shape at path, under the clips and the opacity of all its groups. */
  predicate IsFillAt(g: Group, under: State, path: seq<nat>, mark: Mark) {
    && ShapeAt(g, path).Some? && mark.Painted? && mark.paint.FillPaint?
    && var (s, gs) := (ShapeAt(g, path).value, GroupsAlong(g, path));
    && s.visible && s.fill.Some? && !s.fill.value.source.Pattern? && mark.path == s.path
    && mark.paint.source == s.fill.value.source && mark.paint.rule == s.fill.value.rule
    && mark.paint.alpha == s.fill.value.opacity * OpacityOf(gs)
    && mark.under == State(under.view, under.clips + AllClips(gs))
  }

  predicate IsStrokeAt(g: Group, under: State, path: seq<nat>, mark: Mark) {
    && ShapeAt(g, path).Some? && mark.Painted? && mark.paint.StrokePaint?
    && var (s, gs) := (ShapeAt(g, path).value, GroupsAlong(g, path));
    && s.visible && s.stroke.Some? && !s.stroke.value.source.Pattern? && mark.path == s.path
    && mark.paint.source == s.stroke.value.source && mark.paint.line == s.stroke.value.line
    && mark.paint.alpha == s.stroke.value.opacity * OpacityOf(gs)
    && mark.under == State(under.view, under.clips + AllClips(gs))
  }

  predicate Fills(s: Shape, alpha: real, under: State, mark: Mark)
    requires s.fill.Some?
  {
    !s.fill.value.source.Pattern?
    && mark == Painted(s.path, FillPaint(s.fill.value.source, alpha, s.fill.value.rule), under)
  }

  predicate Strokes(s: Shape, alpha: real, under: State, mark: Mark)
    requires s.stroke.Some?
  {
    !s.stroke.value.source.Pattern?
    && mark == Painted(s.path, StrokePaint(s.stroke.value.source, alpha, s.stroke.value.line), under)
  }

  lemma InShapeMarks(s: Shape, opacity: real, under: State, mark: Mark)
    ensures mark in ShapeMarks(s, opacity, under) <==>
              && s.visible
              && (|| (s.fill.Some? && Fills(s, Times(s.fill.value.opacity, opacity), under, mark))
                  || (s.stroke.Some? && Strokes(s, Times(s.stroke.value.opacity, opacity), under, mark)))
  {
    hide Times;
    var (fills, strokes) := (Paints(s.path, FillOf(s, opacity), under), Paints(s.path, StrokeOf(s, opacity), under));
    assert mark in fills + strokes <==> mark in fills || mark in strokes;
  }

  lemma TimesIs(x: real, y: real)
    ensures Times(x, y) == x * y
  {
  }

  lemma MadeIsFillOrStroke(g: Group, under: State, path: seq<nat>, mark: Mark)
    ensures MadeAt(g, 1.0, under, path, mark) <==> IsFillAt(g, under, path, mark) || IsStrokeAt(g, under, path, mark)
  {
    hide Times, ShapeMarks, AllClips, OpacityOf, Opacity, GroupsAlong;
    var gs := GroupsAlong(g, path);
    OpacityIs(1.0, gs);
    assert Opacity(1.0, gs) == OpacityOf(gs);
    if ShapeAt(g, path).Some? {
      var s := ShapeAt(g, path).value;
      InShapeMarks(s, OpacityOf(gs), Clipped(under, AllClips(gs)), mark);
      if s.fill.Some? { TimesIs(s.fill.value.opacity, OpacityOf(gs)); }
      if s.stroke.Some? { TimesIs(s.stroke.value.opacity, OpacityOf(gs)); }
    }
  }

  /** Marks are the fills and the strokes of the visible shapes, and all of them. */
  lemma MarksAreMade(g: Group, under: State, mark: Mark)
    ensures mark in Rendered(g, 1.0, under)
       <==> exists path :: IsFillAt(g, under, path, mark) || IsStrokeAt(g, under, path, mark)
  {
    hide MadeAt, IsFillAt, IsStrokeAt;
    MarksAreMadeSomewhere(g, 1.0, under, mark);
    forall path { MadeIsFillOrStroke(g, under, path, mark); }
  }

  lemma {:induction false} InAll(nodes: seq<Node>, opacity: real, under: State, mark: Mark)
    ensures mark in RenderedAll(nodes, opacity, under) <==> exists i: nat :: ChildMakes(nodes, i, opacity, under, mark)
  {
    hide RenderedNode;
    if nodes != [] {
      InAll(nodes[1..], opacity, under, mark);
      assert ChildMakes(nodes, 0, opacity, under, mark) <==> mark in RenderedNode(nodes[0], opacity, under);
      forall i: nat ensures ChildMakes(nodes[1..], i, opacity, under, mark)
          <==> ChildMakes(nodes, i + 1, opacity, under, mark) {
      }
      if i: nat :| ChildMakes(nodes, i, opacity, under, mark) {
        assert i == 0 || ChildMakes(nodes[1..], i - 1, opacity, under, mark);
      }
    }
  }

  predicate ChildMakes(nodes: seq<Node>, i: nat, opacity: real, under: State, mark: Mark) {
    i < |nodes| && mark in RenderedNode(nodes[i], opacity, under)
  }

  lemma Extended(g: Group, above: real, under: State, path: seq<nat>, mark: Mark)
    requires path != [] && path[0] < |g.children|
    ensures var (node, opacity, inner) := (g.children[path[0]], Times(above, g.opacity), Clipped(under, ClipsOf(g)));
      MadeAt(g, above, under, path, mark) <==>
        match node
        case GroupNode(inside) => MadeAt(inside, opacity, inner, path[1..], mark)
        case ShapeNode(s) => |path| == 1 && mark in ShapeMarks(s, opacity, inner)
        case OtherNode => false
  {
    hide ShapeMarks, ClipsOf;
    var node := g.children[path[0]];
    var gs := GroupsAlong(g, path);
    if node.GroupNode? && |path| > 1 {
      assert gs[1..] == GroupsAlong(node.group, path[1..]);
      assert AllClips(gs) == ClipsOf(g) + AllClips(gs[1..]);
      assert Clipped(under, AllClips(gs)) == Clipped(Clipped(under, ClipsOf(g)), AllClips(gs[1..]));
      assert Opacity(above, gs) == Opacity(Times(above, g.opacity), gs[1..]);
    } else {
      assert gs == [g] && gs[1..] == [];
      assert AllClips(gs) == ClipsOf(g);
      assert Opacity(above, gs) == Times(above, g.opacity);
    }
  }

  lemma {:induction false} Maker(g: Group, above: real, under: State, mark: Mark) returns (path: seq<nat>)
    requires mark in Rendered(g, above, under)
    ensures MadeAt(g, above, under, path, mark)
    decreases g
  {
    hide ShapeMarks, MadeAt;
    var opacity, inner := Times(above, g.opacity), Clipped(under, ClipsOf(g));
    InAll(g.children, opacity, inner, mark);
    var i: nat :| ChildMakes(g.children, i, opacity, inner, mark);
    if g.children[i].GroupNode? {
      var more := Maker(g.children[i].group, opacity, inner, mark);
      path := [i] + more;
      assert path[1..] == more;
    } else {
      path := [i];
    }
    Extended(g, above, under, path, mark);
  }

  lemma {:induction false} MadeIsRendered(g: Group, above: real, under: State, path: seq<nat>, mark: Mark)
    requires MadeAt(g, above, under, path, mark)
    ensures mark in Rendered(g, above, under)
    decreases |path|
  {
    hide ShapeMarks;
    assert path != [] && path[0] < |g.children|;
    Extended(g, above, under, path, mark);
    hide MadeAt;
    var opacity, inner := Times(above, g.opacity), Clipped(under, ClipsOf(g));
    var node := g.children[path[0]];
    if node.GroupNode? { MadeIsRendered(node.group, opacity, inner, path[1..], mark); }
    InAll(g.children, opacity, inner, mark);
    assert ChildMakes(g.children, path[0], opacity, inner, mark);
  }

  // ---------------------------------------------------------------- every clip has its restore

  function Depth(items: seq<Item>): int {
    if items == [] then 0 else
    Depth(items[..|items|-1]) +
    match items[|items|-1]
    case ClipItem(_) => 1
    case RestoreItem => -1
    case DrawItem(_, _, _) => 0
  }

  /** Never more restores than clips so far, and as many in the end. */
  predicate Balanced(items: seq<Item>) {
    Depth(items) == 0 && forall k | 0 <= k <= |items| :: Depth(items[..k]) >= 0
  }

  lemma {:induction false} DepthJoins(a: seq<Item>, b: seq<Item>)
    ensures Depth(a + b) == Depth(a) + Depth(b)
  {
    if b == [] {
      assert a + b == a;
    } else {
      DepthJoins(a, b[..|b|-1]);
      assert (a + b)[..|a + b|-1] == a + b[..|b|-1];
    }
  }

  lemma BalancedJoin(a: seq<Item>, b: seq<Item>)
    requires Balanced(a) && Balanced(b)
    ensures Balanced(a + b)
  {
    DepthJoins(a, b);
    forall k | 0 <= k <= |a + b| ensures Depth((a + b)[..k]) >= 0 {
      if k <= |a| {
        assert (a + b)[..k] == a[..k];
      } else {
        assert (a + b)[..k] == a + b[..k - |a|];
        DepthJoins(a, b[..k - |a|]);
      }
    }
  }

  lemma BalancedWrap(clip: Clip, a: seq<Item>)
    requires Balanced(a)
    ensures Balanced([ClipItem(clip)] + a + [RestoreItem])
  {
    var s := [ClipItem(clip)] + a + [RestoreItem];
    DepthOfOne(ClipItem(clip));
    DepthOfOne(RestoreItem);
    DepthJoins([ClipItem(clip)], a);
    DepthJoins([ClipItem(clip)] + a, [RestoreItem]);
    forall k | 0 <= k <= |s| ensures Depth(s[..k]) >= 0 {
      if 0 < k < |s| {
        assert s[..k] == [ClipItem(clip)] + a[..k - 1];
        DepthJoins([ClipItem(clip)], a[..k - 1]);
      } else if k == |s| {
        assert s[..k] == s;
      }
    }
  }

  lemma DepthOfOne(item: Item)
    ensures Depth([item]) == match item case ClipItem(_) => 1 case RestoreItem => -1 case DrawItem(_, _, _) => 0
  {
    assert [item][..0] == [];
  }

  lemma {:induction false} FlattenedIsBalanced(g: Group, above: real)
    ensures Balanced(Flattened(g, above))
    decreases g, 0
  {
    hide Balanced;
    FlattenedAllIsBalanced(g.children, Times(above, g.opacity));
    if g.clip.Some? {
      BalancedWrap(Merged(g.clip.value), FlattenedAll(g.children, Times(above, g.opacity)));
    } else {
      assert Flattened(g, above) == FlattenedAll(g.children, Times(above, g.opacity));
    }
  }

  lemma {:induction false} FlattenedAllIsBalanced(nodes: seq<Node>, opacity: real)
    ensures Balanced(FlattenedAll(nodes, opacity))
    decreases nodes
  {
    if nodes != [] {
      FlattenedNodeIsBalanced(nodes[0], opacity);
      FlattenedAllIsBalanced(nodes[1..], opacity);
      BalancedJoin(FlattenedNode(nodes[0], opacity), FlattenedAll(nodes[1..], opacity));
    }
  }

  lemma {:induction false} FlattenedNodeIsBalanced(node: Node, opacity: real)
    ensures Balanced(FlattenedNode(node, opacity))
    decreases node
  {
    match node
    case GroupNode(g) => FlattenedIsBalanced(g, opacity);
    case ShapeNode(s) =>
      var item := DrawItem(s.path, FillOf(s, opacity), StrokeOf(s, opacity));
      DepthOfOne(item);
      assert forall k | 0 <= k <= 1 :: [item][..k] == if k == 0 then [] else [item];
    case OtherNode =>
  }
}
