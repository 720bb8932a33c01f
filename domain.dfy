/**
  The value types of the annotation service: the optional type used at every
  API boundary, the resource envelope every entity carries, the ten entities,
  the cause codes of the service's exception and the host-platform hooks.
 */
module Domain {

  /** The optional type the service uses everywhere (none is not the same as 0). */
  datatype Option<+T> = None | Some(value: T) {

    /** The option itself when it holds a value, otherwise `other`. */
    function OrElse(other: Option<T>): Option<T> {
      if Some? then this else other
    }

    /** The value, or `default` when there is none. */
    function GetOr(default: T): T {
      if Some? then value else default
    }
  }

  /** Tags: a map from string to string attached to a resource. */
  type Tags = map<string, string>

  /** A point in time, as the date parser returns it. */
  type Date = int

  /** A floating-point field of an entity; only its identity matters here. */
  datatype Double = Double(bits: bv64)

  /**
    The access/audit envelope embedded in every entity. Stamps (who and when)
    are not modelled; `deleted` is the soft-delete mark.
   */
  datatype Resource = Resource(access: Option<int>, tags: Tags, deleted: bool) {

    /** The same envelope marked as deleted. */
    function Deleted(): Resource {
      this.(deleted := true)
    }
  }

  datatype User = User(id: int, extId: string, nickname: string, email: Option<string>, res: Resource) {
    predicate Live() { !res.deleted }
    function SoftDeleted(): User { this.(res := res.Deleted()) }
  }

  datatype Video = Video(id: int, extId: string, res: Resource) {
    predicate Live() { !res.deleted }
    function SoftDeleted(): Video { this.(res := res.Deleted()) }
  }

  datatype Track = Track(id: int, videoId: int, name: string, description: Option<string>,
                         settings: Option<string>, res: Resource) {
    predicate Live() { !res.deleted }
    function SoftDeleted(): Track { this.(res := res.Deleted()) }
  }

  datatype Annotation = Annotation(id: int, trackId: int, start: Double, duration: Option<Double>,
                                   content: string, createdFromQuestionnaire: int,
                                   settings: Option<string>, res: Resource) {
    predicate Live() { !res.deleted }
    function SoftDeleted(): Annotation { this.(res := res.Deleted()) }
  }

  /** A scale without a video is a template scale. */
  datatype Scale = Scale(id: int, videoId: Option<int>, name: string, description: Option<string>,
                         res: Resource) {
    predicate Live() { !res.deleted }
    predicate IsTemplate() { videoId.None? }
    function SoftDeleted(): Scale { this.(res := res.Deleted()) }
  }

  datatype ScaleValue = ScaleValue(id: int, scaleId: int, name: string, value: Double, order: int,
                                   res: Resource) {
    predicate Live() { !res.deleted }
    function SoftDeleted(): ScaleValue { this.(res := res.Deleted()) }
  }

  datatype Questionnaire = Questionnaire(id: int, videoId: Option<int>, title: string, content: string,
                                         settings: Option<string>, res: Resource) {
    predicate Live() { !res.deleted }
    function SoftDeleted(): Questionnaire { this.(res := res.Deleted()) }
  }

  /**
    A category. `seriesCategoryId` points from a per-video copy to the master
    series category it was copied from.
   */
  datatype Category = Category(id: int, seriesExtId: Option<string>, seriesCategoryId: Option<int>,
                               videoId: Option<int>, scaleId: Option<int>, name: string,
                               description: Option<string>, settings: Option<string>, res: Resource) {
    predicate Live() { !res.deleted }
    function SoftDeleted(): Category { this.(res := res.Deleted()) }
  }

  /** A label. `seriesLabelId` points from a copy to its master series label. */
  datatype Label = Label(id: int, seriesLabelId: Option<int>, categoryId: int, value: string,
                         abbreviation: string, description: Option<string>, settings: Option<string>,
                         res: Resource) {
    predicate Live() { !res.deleted }
    function SoftDeleted(): Label { this.(res := res.Deleted()) }
  }

  datatype Comment = Comment(id: int, annotationId: int, replyToId: Option<int>, text: string,
                             res: Resource) {
    predicate Live() { !res.deleted }
    function SoftDeleted(): Comment { this.(res := res.Deleted()) }
  }

  /**
    The cause code carried by the service's exception: UNAUTHORIZED, DUPLICATE,
    NOT_FOUND, or any other cause (named by `reason`).
   */
  datatype Cause = Unauthorized | Duplicate | NotFound | Other(reason: string)

  /** The outcome of a service call that may raise the service's exception. */
  datatype Result<+T> = Success(value: T) | Failure(cause: Cause)

  /** A media package of the host video platform, known by its id. */
  datatype MediaPackage = MediaPackage(id: string)

  /** The ACL action a video-scoped write needs. */
  const ANNOTATE_ACTION: string := "annotate"

  /**
    The host platform as the service sees it: the current principal's access
    to a resource, the media-package lookup and the ACL evaluator. All three
    are decided outside this system.
   */
  datatype Host = Host(hasResourceAccess: Resource -> bool,
                       findMediaPackage: string -> Option<MediaPackage>,
                       hasVideoAccess: (MediaPackage, string) -> bool)
}
