/**
  Location URIs. A URI is a sequence of path segments under the endpoint's
  base URL. `Route` reads a path back the way the endpoint's routes do, so a
  location is correct when it routes to the entity it was built for.
 */
module Locations {
  import opened Domain

  /**
    A path segment: a literal word, a number, or the string form of an
    optional number (which is neither a word the routes expect nor a number).
   */
  datatype Segment = Word(text: string) | Num(n: int) | Opt(o: Option<int>)

  type Path = seq<Segment>

  /** What a path names. `video` is the video the path is scoped under, if any. */
  datatype Target =
    | UserAt(id: int)
    | VideoAt(id: int)
    | ScaleAt(video: Option<int>, id: int)
    | ScaleValueAt(video: Option<int>, scale: int, id: int)
    | CategoryAt(video: Option<int>, id: int)
    | QuestionnaireAt(video: Option<int>, id: int)
    | LabelAt(video: Option<int>, category: int, id: int)

  /** The routes below a (possibly absent) video scope. */
  function RouteScoped(video: Option<int>, p: Path): Option<Target> {
    if |p| == 2 && p[1].Num? then
      if p[0] == Word("scales") then Some(ScaleAt(video, p[1].n))
      else if p[0] == Word("categories") then Some(CategoryAt(video, p[1].n))
      else if p[0] == Word("questionnaires") then Some(QuestionnaireAt(video, p[1].n))
      else None
    else if |p| == 4 && p[1].Num? && p[3].Num? then
      if p[0] == Word("scales") && p[2] == Word("scalevalues") then Some(ScaleValueAt(video, p[1].n, p[3].n))
      else if p[0] == Word("categories") && p[2] == Word("labels") then Some(LabelAt(video, p[1].n, p[3].n))
      else None
    else None
  }

  /** The entity a path under `base` names, or none when no route matches it. */
  function Route(base: string, p: Path): Option<Target> {
    if |p| < 3 || p[0] != Word(base) then None
    else if p[1] == Word("users") then
      if |p| == 3 && p[2].Num? then Some(UserAt(p[2].n)) else None
    else if p[1] == Word("videos") && p[2].Num? then
      if |p| == 3 then Some(VideoAt(p[2].n)) else RouteScoped(Some(p[2].n), p[3..])
    else RouteScoped(None, p[1..])
  }

  /** The segments that scope a path under a video. */
  function Scope(video: Option<int>): Path {
    if video.Some? then [Word("videos"), Num(video.value)] else []
  }

  /** The path of a target; the one definition all builders share. */
  function PathOf(base: string, t: Target): Path {
    [Word(base)] +
    match t
    case UserAt(id) => [Word("users"), Num(id)]
    case VideoAt(id) => [Word("videos"), Num(id)]
    case ScaleAt(v, id) => Scope(v) + [Word("scales"), Num(id)]
    case ScaleValueAt(v, s, id) => Scope(v) + [Word("scales"), Num(s), Word("scalevalues"), Num(id)]
    case CategoryAt(v, id) => Scope(v) + [Word("categories"), Num(id)]
    case QuestionnaireAt(v, id) => Scope(v) + [Word("questionnaires"), Num(id)]
    case LabelAt(v, c, id) => Scope(v) + [Word("categories"), Num(c), Word("labels"), Num(id)]
  }

  /** Every target's path routes back to that target, so distinct targets have distinct paths. */
  lemma {:induction false} RouteInvertsPathOf(base: string, t: Target)
    ensures Route(base, PathOf(base, t)) == Some(t)
  {
    var p := PathOf(base, t);
    match t {
      case UserAt(_) =>
      case VideoAt(_) =>
      case ScaleAt(v, _) =>
        if v.Some? { assert p[3..] == p[3..][..2]; } else { assert p[1..] == p[1..][..2]; }
      case ScaleValueAt(v, _, _) =>
        if v.Some? { assert p[3..] == p[3..][..4]; } else { assert p[1..] == p[1..][..4]; }
      case CategoryAt(v, _) =>
        if v.Some? { assert p[3..] == p[3..][..2]; } else { assert p[1..] == p[1..][..2]; }
      case QuestionnaireAt(v, _) =>
        if v.Some? { assert p[3..] == p[3..][..2]; } else { assert p[1..] == p[1..][..2]; }
      case LabelAt(v, _, _) =>
        if v.Some? { assert p[3..] == p[3..][..4]; } else { assert p[1..] == p[1..][..4]; }
    }
  }

  /** Location of a user: `users/{id}`. */
  function UserLocation(base: string, u: User): (p: Path)
    ensures Route(base, p) == Some(UserAt(u.id))
  {
    RouteInvertsPathOf(base, UserAt(u.id));
    PathOf(base, UserAt(u.id))
  }

  /** Location of a video: `videos/{id}`. */
  function VideoLocation(base: string, v: Video): (p: Path)
    ensures Route(base, p) == Some(VideoAt(v.id))
  {
    RouteInvertsPathOf(base, VideoAt(v.id));
    PathOf(base, VideoAt(v.id))
  }

  /**
    Location of a scale as the code builds it: in the video scope the scale's
    video id goes into the path as the optional value itself.
   */
  function ScaleLocationAsWritten(base: string, s: Scale, hasVideo: bool): (p: Path)
    ensures !hasVideo ==> Route(base, p) == Some(ScaleAt(None, s.id))
  {
    if hasVideo then [Word(base), Word("videos"), Opt(s.videoId), Word("scales"), Num(s.id)]
    else
      RouteInvertsPathOf(base, ScaleAt(None, s.id));
      PathOf(base, ScaleAt(None, s.id))
  }

  /** In the video scope the as-written scale location does not route at all. */
  lemma ScaleLocationAsWrittenUnroutable(base: string, s: Scale)
    ensures Route(base, ScaleLocationAsWritten(base, s, true)) == None
  {
  }

  /** Outside a video scope the corrected and the as-written scale locations are the same path. */
  lemma ScaleLocationsAgreeOutsideVideoScope(base: string, s: Scale)
    ensures ScaleLocation(base, s, false) == ScaleLocationAsWritten(base, s, false)
  {
  }

  /**
    Location of a scale: under its own video when the request is video
    scoped and the scale has a video, otherwise `scales/{id}`.
   */
  function ScaleLocation(base: string, s: Scale, hasVideo: bool): (p: Path)
    ensures Route(base, p) == Some(ScaleAt(if hasVideo then s.videoId else None, s.id))
  {
    var t := ScaleAt(if hasVideo then s.videoId else None, s.id);
    RouteInvertsPathOf(base, t);
    PathOf(base, t)
  }

  /** Location of a scale value, under the request's video when there is one. */
  function ScaleValueLocation(base: string, v: ScaleValue, videoId: Option<int>): (p: Path)
    ensures Route(base, p) == Some(ScaleValueAt(videoId, v.scaleId, v.id))
  {
    RouteInvertsPathOf(base, ScaleValueAt(videoId, v.scaleId, v.id));
    PathOf(base, ScaleValueAt(videoId, v.scaleId, v.id))
  }

  /** Location of a category: under its own video when the request is video scoped and it has one. */
  function CategoryLocation(base: string, c: Category, hasVideo: bool): (p: Path)
    ensures Route(base, p) == Some(CategoryAt(if hasVideo then c.videoId else None, c.id))
  {
    var t := CategoryAt(if hasVideo then c.videoId else None, c.id);
    RouteInvertsPathOf(base, t);
    PathOf(base, t)
  }

  /** Location of a questionnaire: under its own video when the request is video scoped and it has one. */
  function QuestionnaireLocation(base: string, q: Questionnaire, hasVideo: bool): (p: Path)
    ensures Route(base, p) == Some(QuestionnaireAt(if hasVideo then q.videoId else None, q.id))
  {
    var t := QuestionnaireAt(if hasVideo then q.videoId else None, q.id);
    RouteInvertsPathOf(base, t);
    PathOf(base, t)
  }

  /** Location of a label: its own category and id, under the request's video when there is one. */
  function LabelLocation(base: string, l: Label, videoId: Option<int>): (p: Path)
    ensures Route(base, p) == Some(LabelAt(videoId, l.categoryId, l.id))
  {
    RouteInvertsPathOf(base, LabelAt(videoId, l.categoryId, l.id));
    PathOf(base, LabelAt(videoId, l.categoryId, l.id))
  }
}
