/**
  The annotation service's store contract. Every table maps ids to rows;
  deletion is soft (the row's resource is marked deleted and stays stored),
  lookups see live rows unless asked to include deleted ones, and a single
  counter hands out fresh ids. The ghost `writes` counts the persistence
  writes the service issues, so that "no update call is made" can be stated.
 */
module AnnotationService {
  import opened Domain

  /** `createResource(access, tags)`: a live resource with the given access and tags (none: no tags). */
  function CreateResource(access: Option<int>, tags: Option<Tags>): (r: Resource)
    ensures !r.deleted && r.access == access
    ensures tags.Some? ==> r.tags == tags.value
    ensures tags.None? ==> r.tags == map[]
  {
    Resource(access, tags.GetOr(map[]), false)
  }

  /** `updateResource(resource, tags)`: new tags when given; access and deletion are kept. */
  function UpdateResource(r: Resource, tags: Option<Tags>): (u: Resource)
    ensures u.access == r.access && u.deleted == r.deleted
    ensures u.tags == if tags.Some? then tags.value else r.tags
    ensures tags.None? ==> u == r
  {
    r.(tags := tags.GetOr(r.tags))
  }

  /**
    The categories after the master `master` is stored and every other copy
    of it (a category whose series category is the master) is soft-deleted.
   */
  function WithoutSeriesCopies(m: map<int, Category>, master: Category): (r: map<int, Category>)
    ensures r.Keys == m.Keys + {master.id} && r[master.id] == master
    ensures forall k :: k in r && k != master.id && r[k].seriesCategoryId == Some(master.id) ==> !r[k].Live()
    ensures forall k :: k in m && k != master.id && m[k].seriesCategoryId != Some(master.id) ==> r[k] == m[k]
    ensures forall k :: k in m && k != master.id ==> r[k] == m[k] || r[k] == m[k].SoftDeleted()
  {
    (map k | k in m ::
        if m[k].seriesCategoryId == Some(master.id) then m[k].SoftDeleted() else m[k])[master.id := master]
  }

  /** The scale values after every value of scale `scaleId` is soft-deleted. */
  function WithValuesOfScaleDeleted(m: map<int, ScaleValue>, scaleId: int): (r: map<int, ScaleValue>)
    ensures r.Keys == m.Keys
    ensures forall k :: k in r && r[k].scaleId == scaleId ==> !r[k].Live()
    ensures forall k :: k in m && m[k].scaleId != scaleId ==> r[k] == m[k]
    ensures forall k :: k in m ==> r[k] == m[k] || r[k] == m[k].SoftDeleted()
  {
    map k | k in m :: if m[k].scaleId == scaleId then m[k].SoftDeleted() else m[k]
  }

  /** Every id in `ids` is below `bound`, so `bound` and every id above it are fresh. */
  ghost predicate Below(ids: set<int>, bound: int) {
    forall k :: k in ids ==> k < bound
  }

  // Every row is stored under its own id: one predicate per table.

  ghost predicate UsersKeyed(m: map<int, User>) {
    forall k :: k in m ==> m[k].id == k
  }

  ghost predicate VideosKeyed(m: map<int, Video>) {
    forall k :: k in m ==> m[k].id == k
  }

  ghost predicate TracksKeyed(m: map<int, Track>) {
    forall k :: k in m ==> m[k].id == k
  }

  ghost predicate AnnotationsKeyed(m: map<int, Annotation>) {
    forall k :: k in m ==> m[k].id == k
  }

  ghost predicate ScalesKeyed(m: map<int, Scale>) {
    forall k :: k in m ==> m[k].id == k
  }

  ghost predicate ScaleValuesKeyed(m: map<int, ScaleValue>) {
    forall k :: k in m ==> m[k].id == k
  }

  ghost predicate QuestionnairesKeyed(m: map<int, Questionnaire>) {
    forall k :: k in m ==> m[k].id == k
  }

  ghost predicate CategoriesKeyed(m: map<int, Category>) {
    forall k :: k in m ==> m[k].id == k
  }

  ghost predicate LabelsKeyed(m: map<int, Label>) {
    forall k :: k in m ==> m[k].id == k
  }

  ghost predicate CommentsKeyed(m: map<int, Comment>) {
    forall k :: k in m ==> m[k].id == k
  }

  /** No two stored users share an external id. */
  ghost predicate UniqueUserExtIds(m: map<int, User>) {
    forall a, b :: a in m && b in m && m[a].extId == m[b].extId ==> a == b
  }

  /** No two stored videos share an external id. */
  ghost predicate UniqueVideoExtIds(m: map<int, Video>) {
    forall a, b :: a in m && b in m && m[a].extId == m[b].extId ==> a == b
  }

  class Store {
    const host: Host
    var users: map<int, User>
    var videos: map<int, Video>
    var tracks: map<int, Track>
    var annotations: map<int, Annotation>
    var scales: map<int, Scale>
    var scaleValues: map<int, ScaleValue>
    var questionnaires: map<int, Questionnaire>
    var categories: map<int, Category>
    var labels: map<int, Label>
    var comments: map<int, Comment>
    var nextId: int
    ghost var writes: nat

    /** Rows are stored under their own id, ids are below the next fresh id, external ids are unique. */
    ghost predicate Valid()
      reads this
    {
      && UsersKeyed(users)
      && VideosKeyed(videos)
      && TracksKeyed(tracks)
      && AnnotationsKeyed(annotations)
      && ScalesKeyed(scales)
      && ScaleValuesKeyed(scaleValues)
      && QuestionnairesKeyed(questionnaires)
      && CategoriesKeyed(categories)
      && LabelsKeyed(labels)
      && CommentsKeyed(comments)
      && UniqueUserExtIds(users) && UniqueVideoExtIds(videos)
      && Below(users.Keys, nextId)
      && Below(videos.Keys, nextId)
      && Below(tracks.Keys, nextId)
      && Below(annotations.Keys, nextId)
      && Below(scales.Keys, nextId)
      && Below(scaleValues.Keys, nextId)
      && Below(questionnaires.Keys, nextId)
      && Below(categories.Keys, nextId)
      && Below(labels.Keys, nextId)
      && Below(comments.Keys, nextId)
    }

    constructor (host: Host)
      ensures Valid() && this.host == host
      ensures users == map[] && videos == map[] && tracks == map[] && annotations == map[] && scales == map[]
      ensures scaleValues == map[] && questionnaires == map[] && categories == map[] && labels == map[]
      ensures comments == map[] && nextId == 0 && writes == 0
    {
      this.host := host;
      users, videos, tracks, annotations, scales := map[], map[], map[], map[], map[];
      scaleValues, questionnaires, categories, labels, comments := map[], map[], map[], map[], map[];
      nextId, writes := 0, 0;
    }

    // ---- host platform

    /** Whether the current principal may act on the resource (decided by the host). */
    predicate HasResourceAccess(r: Resource) {
      host.hasResourceAccess(r)
    }

    /** The host's media package with that id, if any. */
    function FindMediaPackage(id: string): Option<MediaPackage> {
      host.findMediaPackage(id)
    }

    /** Whether the current principal has the ACL action on the media package (decided by the host). */
    predicate HasVideoAccess(mp: MediaPackage, action: string) {
      host.hasVideoAccess(mp, action)
    }

    // ---- users

    /** Some stored user, deleted or not, has this external id. */
    ghost predicate UserExtIdStored(extId: string)
      reads this
    {
      exists k :: k in users && users[k].extId == extId
    }

    /** The live user with that id. */
    function GetUser(id: int): (r: Option<User>)
      reads this
      ensures r.Some? <==> id in users && users[id].Live()
      ensures r.Some? ==> r.value == users[id]
    {
      if id in users && users[id].Live() then Some(users[id]) else None
    }

    /** The live user whose id in the surrounding video portal is `extId`. */
    function GetUserByExtId(extId: string): (r: Option<User>)
      requires Valid()
      reads this
      ensures r.Some? ==> r.value.id in users && users[r.value.id] == r.value
                          && r.value.extId == extId && r.value.Live()
      ensures r.None? ==> forall k :: k in users && users[k].extId == extId ==> !users[k].Live()
    {
      if exists k :: k in users && users[k].extId == extId && users[k].Live() then
        var k :| k in users && users[k].extId == extId && users[k].Live();
        Some(users[k])
      else None
    }

    /** `createUser`: a new user under a fresh id; DUPLICATE when the external id is stored already. */
    method CreateUser(extId: string, nickname: string, email: Option<string>, res: Resource)
      returns (r: Result<User>)
      requires Valid()
      modifies this`users, this`nextId, this`writes
      ensures Valid()
      ensures old(UserExtIdStored(extId)) ==> r == Failure(Duplicate) && unchanged(this)
      ensures !old(UserExtIdStored(extId)) ==>
        && r == Success(User(old(nextId), extId, nickname, email, res))
        && old(nextId) !in old(users)
        && users == old(users)[old(nextId) := r.value] && nextId == old(nextId) + 1 && writes == old(writes) + 1
    {
      if exists k :: k in users && users[k].extId == extId {
        return Failure(Duplicate);
      }
      var u := User(nextId, extId, nickname, email, res);
      users := users[nextId := u];
      nextId, writes := nextId + 1, writes + 1;
      r := Success(u);
    }

    /** A stored user other than `u` holds `u`'s external id. */
    ghost predicate UserExtIdHeldByOther(u: User)
      reads this
    {
      exists k :: k in users && k != u.id && users[k].extId == u.extId
    }

    /** `updateUser`: replaces the stored user; DUPLICATE when another user holds its external id. */
    method UpdateUser(u: User) returns (r: Result<()>)
      requires Valid() && u.id in users
      modifies this`users, this`writes
      ensures Valid()
      ensures old(UserExtIdHeldByOther(u)) ==> r == Failure(Duplicate) && unchanged(this)
      ensures !old(UserExtIdHeldByOther(u)) ==>
        r == Success(()) && (users == old(users)[u.id := u] && writes == old(writes) + 1)
      ensures old(users)[u.id].extId == u.extId ==> r.Success?
      ensures old(users)[u.id] == u ==> r.Success? && users == old(users) && writes == old(writes) + 1
    {
      if exists k :: k in users && k != u.id && users[k].extId == u.extId {
        return Failure(Duplicate);
      }
      if users[u.id] == u {
        assert users[u.id := u] == users;
      }
      users := users[u.id := u];
      writes := writes + 1;
      r := Success(());
    }

    /** `deleteUser`: true exactly when the user existed (live) and is now deleted. */
    method DeleteUser(u: User) returns (ok: bool)
      requires Valid()
      modifies this`users, this`writes
      ensures Valid()
      ensures ok <==> old(GetUser(u.id)).Some?
      ensures ok ==> (users == old(users)[u.id := old(users)[u.id].SoftDeleted()] && writes == old(writes) + 1)
      ensures ok ==> GetUser(u.id).None?
      ensures !ok ==> unchanged(this)
    {
      ok := u.id in users && users[u.id].Live();
      if ok {
        users := users[u.id := users[u.id].SoftDeleted()];
        writes := writes + 1;
      }
    }

    /** Empties the annotation data tables: users, videos, tracks, annotations and comments. */
    method ClearAnnotationTables()
      modifies this`users, this`videos, this`tracks, this`annotations, this`comments
      ensures users == map[] && videos == map[] && tracks == map[] && annotations == map[] && comments == map[]
    {
      users, videos, tracks, annotations, comments := map[], map[], map[], map[], map[];
    }

    /** Empties the coding scheme tables: scales, scale values, questionnaires, categories and labels. */
    method ClearSchemeTables()
      modifies this`scales, this`scaleValues, this`questionnaires, this`categories, this`labels
      ensures scales == map[] && scaleValues == map[] && questionnaires == map[] && categories == map[]
      ensures labels == map[]
    {
      scales, scaleValues, questionnaires, categories, labels := map[], map[], map[], map[], map[];
    }

    /** An empty store is valid whatever its id counter, and every lookup in it finds nothing. */
    lemma EmptyStore()
      requires users == map[] && videos == map[] && tracks == map[] && annotations == map[] && scales == map[]
      requires scaleValues == map[] && questionnaires == map[] && categories == map[] && labels == map[]
      requires comments == map[]
      ensures Valid()
      ensures forall id :: GetUser(id).None? && GetVideo(id).None? && GetTrack(id).None?
      ensures forall id :: GetAnnotation(id).None? && GetComment(id).None?
      ensures forall id, includeDeleted: bool :: GetScale(id, includeDeleted).None?
      ensures forall id, includeDeleted: bool :: GetScaleValue(id, includeDeleted).None?
      ensures forall id, includeDeleted: bool :: GetQuestionnaire(id, includeDeleted).None?
      ensures forall id, includeDeleted: bool :: GetCategory(id, includeDeleted).None?
      ensures forall id, includeDeleted: bool :: GetLabel(id, includeDeleted).None?
      ensures forall extId :: GetUserByExtId(extId).None? && GetVideoByExtId(extId).None?
      ensures forall id :: GetTracks(id) == map[] && GetAnnotations(id) == map[] && GetScaleValues(id) == map[]
      ensures forall id :: GetLabels(id) == map[]
      ensures forall video :: GetScales(video) == map[] && GetQuestionnaires(video) == map[]
      ensures forall series, video :: GetCategories(series, video) == map[]
      ensures forall id, replyTo :: GetComments(id, replyTo) == map[]
    {
    }

    /**
      `clearDatabase`: empties every table (the id counter keeps counting);
      `EmptyStore` then says that every lookup finds nothing.
     */
    method ClearDatabase() returns (ok: bool)
      modifies this`users, this`videos, this`tracks, this`annotations, this`scales, this`scaleValues
      modifies this`questionnaires, this`categories, this`labels, this`comments, this`writes
      ensures Valid() && ok
      ensures users == map[] && videos == map[] && tracks == map[] && annotations == map[] && scales == map[]
      ensures scaleValues == map[] && questionnaires == map[] && categories == map[] && labels == map[]
      ensures comments == map[] && nextId == old(nextId) && writes == old(writes) + 1
    {
      ClearAnnotationTables();
      ClearSchemeTables();
      writes := writes + 1;
      EmptyStore();
      ok := true;
    }

    // ---- videos

    /** Some stored video, deleted or not, has this external id. */
    ghost predicate VideoExtIdStored(extId: string)
      reads this
    {
      exists k :: k in videos && videos[k].extId == extId
    }

    /** The live video with that id. */
    function GetVideo(id: int): (r: Option<Video>)
      reads this
      ensures r.Some? <==> id in videos && videos[id].Live()
      ensures r.Some? ==> r.value == videos[id]
    {
      if id in videos && videos[id].Live() then Some(videos[id]) else None
    }

    /** The live video whose id in the surrounding video portal is `extId`. */
    function GetVideoByExtId(extId: string): (r: Option<Video>)
      requires Valid()
      reads this
      ensures r.Some? ==> r.value.id in videos && videos[r.value.id] == r.value
                          && r.value.extId == extId && r.value.Live()
      ensures r.None? ==> forall k :: k in videos && videos[k].extId == extId ==> !videos[k].Live()
    {
      if exists k :: k in videos && videos[k].extId == extId && videos[k].Live() then
        var k :| k in videos && videos[k].extId == extId && videos[k].Live();
        Some(videos[k])
      else None
    }

    /** `createVideo`: a new video under a fresh id; DUPLICATE when the external id is stored already. */
    method CreateVideo(extId: string, res: Resource) returns (r: Result<Video>)
      requires Valid()
      modifies this`videos, this`nextId, this`writes
      ensures Valid()
      ensures old(VideoExtIdStored(extId)) ==> r == Failure(Duplicate) && unchanged(this)
      ensures !old(VideoExtIdStored(extId)) ==>
        && r == Success(Video(old(nextId), extId, res))
        && old(nextId) !in old(videos)
        && videos == old(videos)[old(nextId) := r.value] && nextId == old(nextId) + 1 && writes == old(writes) + 1
    {
      if exists k :: k in videos && videos[k].extId == extId {
        return Failure(Duplicate);
      }
      var v := Video(nextId, extId, res);
      videos := videos[nextId := v];
      nextId, writes := nextId + 1, writes + 1;
      r := Success(v);
    }

    /** A stored video other than `v` holds `v`'s external id. */
    ghost predicate VideoExtIdHeldByOther(v: Video)
      reads this
    {
      exists k :: k in videos && k != v.id && videos[k].extId == v.extId
    }

    /** `updateVideo`: replaces the stored video; DUPLICATE when another video holds its external id. */
    method UpdateVideo(v: Video) returns (r: Result<()>)
      requires Valid() && v.id in videos
      modifies this`videos, this`writes
      ensures Valid()
      ensures old(VideoExtIdHeldByOther(v)) ==> r == Failure(Duplicate) && unchanged(this)
      ensures !old(VideoExtIdHeldByOther(v)) ==>
        r == Success(()) && (videos == old(videos)[v.id := v] && writes == old(writes) + 1)
      ensures old(videos)[v.id].extId == v.extId ==> r.Success?
    {
      if exists k :: k in videos && k != v.id && videos[k].extId == v.extId {
        return Failure(Duplicate);
      }
      videos := videos[v.id := v];
      writes := writes + 1;
      r := Success(());
    }

    /** `deleteVideo`: true exactly when the video existed (live) and is now deleted. */
    method DeleteVideo(v: Video) returns (ok: bool)
      requires Valid()
      modifies this`videos, this`writes
      ensures Valid()
      ensures ok <==> old(GetVideo(v.id)).Some?
      ensures ok ==> (videos == old(videos)[v.id := old(videos)[v.id].SoftDeleted()] && writes == old(writes) + 1)
      ensures ok ==> GetVideo(v.id).None?
      ensures !ok ==> unchanged(this)
    {
      ok := v.id in videos && videos[v.id].Live();
      if ok {
        videos := videos[v.id := videos[v.id].SoftDeleted()];
        writes := writes + 1;
      }
    }

    // ---- tracks

    /** The live track with that id. */
    function GetTrack(id: int): (r: Option<Track>)
      reads this
      ensures r.Some? <==> id in tracks && tracks[id].Live()
      ensures r.Some? ==> r.value == tracks[id]
    {
      if id in tracks && tracks[id].Live() then Some(tracks[id]) else None
    }

    /** `getTracks`: the live tracks of the video, keyed by id; empty when there is none. */
    function GetTracks(videoId: int): (r: map<int, Track>)
      reads this
      ensures forall k :: k in r <==> k in tracks && tracks[k].videoId == videoId && tracks[k].Live()
      ensures forall k :: k in r ==> r[k] == tracks[k]
    {
      map k | k in tracks && tracks[k].videoId == videoId && tracks[k].Live() :: tracks[k]
    }

    /** `createTrack`: a new track of a live video under a fresh id; NOT_FOUND otherwise. */
    method CreateTrack(videoId: int, name: string, description: Option<string>, settings: Option<string>,
                       res: Resource) returns (r: Result<Track>)
      requires Valid()
      modifies this`tracks, this`nextId, this`writes
      ensures Valid()
      ensures old(GetVideo(videoId)).None? ==> r == Failure(NotFound) && unchanged(this)
      ensures old(GetVideo(videoId)).Some? ==>
        && r == Success(Track(old(nextId), videoId, name, description, settings, res))
        && old(nextId) !in old(tracks)
        && tracks == old(tracks)[old(nextId) := r.value] && nextId == old(nextId) + 1 && writes == old(writes) + 1
    {
      if GetVideo(videoId).None? {
        return Failure(NotFound);
      }
      var t := Track(nextId, videoId, name, description, settings, res);
      tracks := tracks[nextId := t];
      nextId, writes := nextId + 1, writes + 1;
      r := Success(t);
    }

    /** `updateTrack`: replaces the stored track. */
    method UpdateTrack(t: Track)
      requires Valid() && t.id in tracks
      modifies this`tracks, this`writes
      ensures Valid()
      ensures tracks == old(tracks)[t.id := t] && writes == old(writes) + 1
    {
      tracks := tracks[t.id := t];
      writes := writes + 1;
    }

    /** `deleteTrack`: true exactly when the track existed (live) and is now deleted. */
    method DeleteTrack(t: Track) returns (ok: bool)
      requires Valid()
      modifies this`tracks, this`writes
      ensures Valid()
      ensures ok <==> old(GetTrack(t.id)).Some?
      ensures ok ==> (tracks == old(tracks)[t.id := old(tracks)[t.id].SoftDeleted()] && writes == old(writes) + 1)
      ensures ok ==> GetTrack(t.id).None?
      ensures !ok ==> unchanged(this)
    {
      ok := t.id in tracks && tracks[t.id].Live();
      if ok {
        tracks := tracks[t.id := tracks[t.id].SoftDeleted()];
        writes := writes + 1;
      }
    }

    // ---- annotations

    /** The live annotation with that id. */
    function GetAnnotation(id: int): (r: Option<Annotation>)
      reads this
      ensures r.Some? <==> id in annotations && annotations[id].Live()
      ensures r.Some? ==> r.value == annotations[id]
    {
      if id in annotations && annotations[id].Live() then Some(annotations[id]) else None
    }

    /** `getAnnotations`: the live annotations of the track, keyed by id; empty when there is none. */
    function GetAnnotations(trackId: int): (r: map<int, Annotation>)
      reads this
      ensures forall k :: k in r <==> k in annotations && annotations[k].trackId == trackId && annotations[k].Live()
      ensures forall k :: k in r ==> r[k] == annotations[k]
    {
      map k | k in annotations && annotations[k].trackId == trackId && annotations[k].Live() :: annotations[k]
    }

    /** `createAnnotation`: a new annotation of a live track under a fresh id; NOT_FOUND otherwise. */
    method CreateAnnotation(trackId: int, start: Double, duration: Option<Double>, content: string,
                            createdFromQuestionnaire: int, settings: Option<string>, res: Resource)
      returns (r: Result<Annotation>)
      requires Valid()
      modifies this`annotations, this`nextId, this`writes
      ensures Valid()
      ensures old(GetTrack(trackId)).None? ==> r == Failure(NotFound) && unchanged(this)
      ensures old(GetTrack(trackId)).Some? ==>
        && r == Success(Annotation(old(nextId), trackId, start, duration, content, createdFromQuestionnaire,
                                   settings, res))
        && old(nextId) !in old(annotations)
        && annotations == old(annotations)[old(nextId) := r.value] && nextId == old(nextId) + 1
          && writes == old(writes) + 1
    {
      if GetTrack(trackId).None? {
        return Failure(NotFound);
      }
      var a := Annotation(nextId, trackId, start, duration, content, createdFromQuestionnaire, settings, res);
      annotations := annotations[nextId := a];
      nextId, writes := nextId + 1, writes + 1;
      r := Success(a);
    }

    /** `createAnnotation(annotation)`: stores a copy of the annotation under a fresh id. */
    method CreateAnnotationFrom(a: Annotation) returns (r: Result<Annotation>)
      requires Valid()
      modifies this`annotations, this`nextId, this`writes
      ensures Valid()
      ensures old(GetTrack(a.trackId)).None? ==> r == Failure(NotFound) && unchanged(this)
      ensures old(GetTrack(a.trackId)).Some? ==>
        && r == Success(a.(id := old(nextId)))
        && annotations == old(annotations)[old(nextId) := r.value] && nextId == old(nextId) + 1
          && writes == old(writes) + 1
    {
      r := CreateAnnotation(a.trackId, a.start, a.duration, a.content, a.createdFromQuestionnaire,
                            a.settings, a.res);
    }

    /** `updateAnnotation`: replaces the stored annotation. */
    method UpdateAnnotation(a: Annotation)
      requires Valid() && a.id in annotations
      modifies this`annotations, this`writes
      ensures Valid()
      ensures annotations == old(annotations)[a.id := a] && writes == old(writes) + 1
    {
      annotations := annotations[a.id := a];
      writes := writes + 1;
    }

    /** `deleteAnnotation`: true exactly when the annotation existed (live) and is now deleted. */
    method DeleteAnnotation(a: Annotation) returns (ok: bool)
      requires Valid()
      modifies this`annotations, this`writes
      ensures Valid()
      ensures ok <==> old(GetAnnotation(a.id)).Some?
      ensures ok ==> (annotations == old(annotations)[a.id := old(annotations)[a.id].SoftDeleted()]
        && writes == old(writes) + 1)
      ensures ok ==> GetAnnotation(a.id).None?
      ensures !ok ==> unchanged(this)
    {
      ok := a.id in annotations && annotations[a.id].Live();
      if ok {
        annotations := annotations[a.id := annotations[a.id].SoftDeleted()];
        writes := writes + 1;
      }
    }

    // ---- scales

    /** `getScale(id, includeDeleted)`: the scale with that id; a deleted one only when `includeDeleted`. */
    function GetScale(id: int, includeDeleted: bool): (r: Option<Scale>)
      reads this
      ensures r.Some? <==> id in scales && (includeDeleted || scales[id].Live())
      ensures r.Some? ==> r.value == scales[id]
    {
      if id in scales && (includeDeleted || scales[id].Live()) then Some(scales[id]) else None
    }

    /** `getScales`: the live scales of the video (the templates for none), keyed by id; empty when there is none. */
    function GetScales(videoId: Option<int>): (r: map<int, Scale>)
      reads this
      ensures forall k :: k in r <==> k in scales && scales[k].videoId == videoId && scales[k].Live()
      ensures forall k :: k in r ==> r[k] == scales[k]
    {
      map k | k in scales && scales[k].videoId == videoId && scales[k].Live() :: scales[k]
    }

    /**
      `createScale`: a new scale under a fresh id, a template when `videoId`
      is none; NOT_FOUND when a given video is not live.
     */
    method CreateScale(videoId: Option<int>, name: string, description: Option<string>, res: Resource)
      returns (r: Result<Scale>)
      requires Valid()
      modifies this`scales, this`nextId, this`writes
      ensures Valid()
      ensures videoId.Some? && old(GetVideo(videoId.value)).None? ==>
        r == Failure(NotFound) && unchanged(this)
      ensures !(videoId.Some? && old(GetVideo(videoId.value)).None?) ==>
        && r == Success(Scale(old(nextId), videoId, name, description, res))
        && (videoId.None? <==> r.value.IsTemplate())
        && old(nextId) !in old(scales)
        && scales == old(scales)[old(nextId) := r.value] && nextId == old(nextId) + 1 && writes == old(writes) + 1
    {
      if videoId.Some? && GetVideo(videoId.value).None? {
        return Failure(NotFound);
      }
      var s := Scale(nextId, videoId, name, description, res);
      scales := scales[nextId := s];
      nextId, writes := nextId + 1, writes + 1;
      r := Success(s);
    }

    /** `updateScale`: replaces the stored scale. */
    method UpdateScale(s: Scale)
      requires Valid() && s.id in scales
      modifies this`scales, this`writes
      ensures Valid()
      ensures scales == old(scales)[s.id := s] && writes == old(writes) + 1
    {
      scales := scales[s.id := s];
      writes := writes + 1;
    }

    /**
      `deleteScale`: marks the stored scale deleted and returns it; it is then
      found only when deleted rows are included.
     */
    method DeleteScale(s: Scale) returns (d: Scale)
      requires Valid() && s.id in scales
      modifies this`scales, this`writes
      ensures Valid()
      ensures d == old(scales)[s.id].SoftDeleted()
      ensures scales == old(scales)[s.id := d] && writes == old(writes) + 1
      ensures GetScale(s.id, false) == None && GetScale(s.id, true) == Some(d)
    {
      d := scales[s.id].SoftDeleted();
      scales := scales[s.id := d];
      writes := writes + 1;
    }

    // ---- scale values

    /** `getScaleValue(id, includeDeleted)`: the value with that id; a deleted one only when `includeDeleted`. */
    function GetScaleValue(id: int, includeDeleted: bool): (r: Option<ScaleValue>)
      reads this
      ensures r.Some? <==> id in scaleValues && (includeDeleted || scaleValues[id].Live())
      ensures r.Some? ==> r.value == scaleValues[id]
    {
      if id in scaleValues && (includeDeleted || scaleValues[id].Live()) then Some(scaleValues[id]) else None
    }

    /** `getScaleValues`: the live values of the scale, keyed by id; empty when there is none. */
    function GetScaleValues(scaleId: int): (r: map<int, ScaleValue>)
      reads this
      ensures forall k :: k in r <==> k in scaleValues && scaleValues[k].scaleId == scaleId && scaleValues[k].Live()
      ensures forall k :: k in r ==> r[k] == scaleValues[k]
    {
      map k | k in scaleValues && scaleValues[k].scaleId == scaleId && scaleValues[k].Live() :: scaleValues[k]
    }

    /** `createScaleValue`: a new value of a live scale under a fresh id; NOT_FOUND otherwise. */
    method CreateScaleValue(scaleId: int, name: string, value: Double, order: int, res: Resource)
      returns (r: Result<ScaleValue>)
      requires Valid()
      modifies this`scaleValues, this`nextId, this`writes
      ensures Valid()
      ensures old(GetScale(scaleId, false)).None? ==> r == Failure(NotFound) && unchanged(this)
      ensures old(GetScale(scaleId, false)).Some? ==>
        && r == Success(ScaleValue(old(nextId), scaleId, name, value, order, res))
        && old(nextId) !in old(scaleValues)
        && scaleValues == old(scaleValues)[old(nextId) := r.value] && nextId == old(nextId) + 1
          && writes == old(writes) + 1
    {
      if GetScale(scaleId, false).None? {
        return Failure(NotFound);
      }
      var v := ScaleValue(nextId, scaleId, name, value, order, res);
      scaleValues := scaleValues[nextId := v];
      nextId, writes := nextId + 1, writes + 1;
      r := Success(v);
    }

    /** `updateScaleValue`: replaces the stored scale value. */
    method UpdateScaleValue(v: ScaleValue)
      requires Valid() && v.id in scaleValues
      modifies this`scaleValues, this`writes
      ensures Valid()
      ensures scaleValues == old(scaleValues)[v.id := v] && writes == old(writes) + 1
    {
      scaleValues := scaleValues[v.id := v];
      writes := writes + 1;
    }

    /** `deleteScaleValue`: marks the stored value deleted and returns it. */
    method DeleteScaleValue(v: ScaleValue) returns (d: ScaleValue)
      requires Valid() && v.id in scaleValues
      modifies this`scaleValues, this`writes
      ensures Valid()
      ensures d == old(scaleValues)[v.id].SoftDeleted()
      ensures scaleValues == old(scaleValues)[v.id := d] && writes == old(writes) + 1
      ensures GetScaleValue(v.id, false) == None && GetScaleValue(v.id, true) == Some(d)
    {
      d := scaleValues[v.id].SoftDeleted();
      scaleValues := scaleValues[v.id := d];
      writes := writes + 1;
    }

    // ---- questionnaires

    /** `getQuestionnaire(id, includeDeleted)`: a deleted one only when `includeDeleted`. */
    function GetQuestionnaire(id: int, includeDeleted: bool): (r: Option<Questionnaire>)
      reads this
      ensures r.Some? <==> id in questionnaires && (includeDeleted || questionnaires[id].Live())
      ensures r.Some? ==> r.value == questionnaires[id]
    {
      if id in questionnaires && (includeDeleted || questionnaires[id].Live()) then Some(questionnaires[id])
      else None
    }

    /** `getQuestionnaires`: the live questionnaires of the video (templates for none); empty when there is none. */
    function GetQuestionnaires(videoId: Option<int>): (r: map<int, Questionnaire>)
      reads this
      ensures forall k :: k in r <==> (k in questionnaires && questionnaires[k].videoId == videoId
                                       && questionnaires[k].Live())
      ensures forall k :: k in r ==> r[k] == questionnaires[k]
    {
      map k | k in questionnaires && questionnaires[k].videoId == videoId && questionnaires[k].Live()
        :: questionnaires[k]
    }

    /** `createQuestionnaire`: a new questionnaire under a fresh id; NOT_FOUND when a given video is not live. */
    method CreateQuestionnaire(videoId: Option<int>, title: string, content: string, settings: Option<string>,
                               res: Resource) returns (r: Result<Questionnaire>)
      requires Valid()
      modifies this`questionnaires, this`nextId, this`writes
      ensures Valid()
      ensures videoId.Some? && old(GetVideo(videoId.value)).None? ==>
        r == Failure(NotFound) && unchanged(this)
      ensures !(videoId.Some? && old(GetVideo(videoId.value)).None?) ==>
        && r == Success(Questionnaire(old(nextId), videoId, title, content, settings, res))
        && old(nextId) !in old(questionnaires)
        && questionnaires == old(questionnaires)[old(nextId) := r.value] && nextId == old(nextId) + 1
          && writes == old(writes) + 1
    {
      if videoId.Some? && GetVideo(videoId.value).None? {
        return Failure(NotFound);
      }
      var q := Questionnaire(nextId, videoId, title, content, settings, res);
      questionnaires := questionnaires[nextId := q];
      nextId, writes := nextId + 1, writes + 1;
      r := Success(q);
    }

    /** `updateQuestionnaire`: replaces the stored questionnaire. */
    method UpdateQuestionnaire(q: Questionnaire)
      requires Valid() && q.id in questionnaires
      modifies this`questionnaires, this`writes
      ensures Valid()
      ensures questionnaires == old(questionnaires)[q.id := q] && writes == old(writes) + 1
    {
      questionnaires := questionnaires[q.id := q];
      writes := writes + 1;
    }

    /** `deleteQuestionnaire`: marks the stored questionnaire deleted and returns it. */
    method DeleteQuestionnaire(q: Questionnaire) returns (d: Questionnaire)
      requires Valid() && q.id in questionnaires
      modifies this`questionnaires, this`writes
      ensures Valid()
      ensures d == old(questionnaires)[q.id].SoftDeleted()
      ensures questionnaires == old(questionnaires)[q.id := d] && writes == old(writes) + 1
      ensures GetQuestionnaire(q.id, false) == None && GetQuestionnaire(q.id, true) == Some(d)
    {
      d := questionnaires[q.id].SoftDeleted();
      questionnaires := questionnaires[q.id := d];
      writes := writes + 1;
    }

    // ---- categories

    /** `getCategory(id, includeDeleted)`: a deleted one only when `includeDeleted`. */
    function GetCategory(id: int, includeDeleted: bool): (r: Option<Category>)
      reads this
      ensures r.Some? <==> id in categories && (includeDeleted || categories[id].Live())
      ensures r.Some? ==> r.value == categories[id]
    {
      if id in categories && (includeDeleted || categories[id].Live()) then Some(categories[id]) else None
    }

    /**
      `getCategories`: the live categories of the video (templates for none),
      restricted to the series when one is given; empty when there is none.
     */
    function GetCategories(seriesExtId: Option<string>, videoId: Option<int>): (r: map<int, Category>)
      reads this
      ensures forall k :: k in r <==> (k in categories && categories[k].videoId == videoId && categories[k].Live()
                                       && (seriesExtId.Some? ==> categories[k].seriesExtId == seriesExtId))
      ensures forall k :: k in r ==> r[k] == categories[k]
    {
      map k | k in categories && categories[k].videoId == videoId && categories[k].Live()
                && (seriesExtId.Some? ==> categories[k].seriesExtId == seriesExtId) :: categories[k]
    }

    /** `createCategory`: a new category under a fresh id; NOT_FOUND when a given video is not live. */
    method CreateCategory(seriesExtId: Option<string>, seriesCategoryId: Option<int>, videoId: Option<int>,
                          scaleId: Option<int>, name: string, description: Option<string>,
                          settings: Option<string>, res: Resource) returns (r: Result<Category>)
      requires Valid()
      modifies this`categories, this`nextId, this`writes
      ensures Valid()
      ensures videoId.Some? && old(GetVideo(videoId.value)).None? ==>
        r == Failure(NotFound) && unchanged(this)
      ensures !(videoId.Some? && old(GetVideo(videoId.value)).None?) ==>
        && r == Success(Category(old(nextId), seriesExtId, seriesCategoryId, videoId, scaleId, name,
                                 description, settings, res))
        && old(nextId) !in old(categories)
        && categories == old(categories)[old(nextId) := r.value] && nextId == old(nextId) + 1
          && writes == old(writes) + 1
    {
      if videoId.Some? && GetVideo(videoId.value).None? {
        return Failure(NotFound);
      }
      var c := Category(nextId, seriesExtId, seriesCategoryId, videoId, scaleId, name, description, settings, res);
      categories := categories[nextId := c];
      nextId, writes := nextId + 1, writes + 1;
      r := Success(c);
    }

    /** `updateCategory`: replaces the stored category and nothing else. */
    method UpdateCategory(c: Category)
      requires Valid() && c.id in categories
      modifies this`categories, this`writes
      ensures Valid()
      ensures categories == old(categories)[c.id := c] && writes == old(writes) + 1
    {
      categories := categories[c.id := c];
      writes := writes + 1;
    }

    /**
      `updateCategoryAndDeleteOtherSeriesCategories`: stores the master
      category (which moves it to its new video) and soft-deletes every other
      category copied from it.
     */
    method UpdateCategoryAndDeleteOtherSeriesCategories(c: Category)
      requires Valid() && c.id in categories
      modifies this`categories, this`writes
      ensures Valid()
      ensures categories == WithoutSeriesCopies(old(categories), c) && writes == old(writes) + 1
      ensures GetCategory(c.id, true) == Some(c)
      ensures forall k :: k != c.id && GetCategory(k, true).Some? && categories[k].seriesCategoryId == Some(c.id)
                          ==> GetCategory(k, false).None?
    {
      categories := WithoutSeriesCopies(categories, c);
      writes := writes + 1;
    }

    /** `deleteCategory`: marks the stored category deleted and returns it. */
    method DeleteCategory(c: Category) returns (d: Category)
      requires Valid() && c.id in categories
      modifies this`categories, this`writes
      ensures Valid()
      ensures d == old(categories)[c.id].SoftDeleted()
      ensures categories == old(categories)[c.id := d] && writes == old(writes) + 1
      ensures GetCategory(c.id, false) == None && GetCategory(c.id, true) == Some(d)
    {
      d := categories[c.id].SoftDeleted();
      categories := categories[c.id := d];
      writes := writes + 1;
    }

    // ---- labels

    /** `getLabel(id, includeDeleted)`: a deleted one only when `includeDeleted`. */
    function GetLabel(id: int, includeDeleted: bool): (r: Option<Label>)
      reads this
      ensures r.Some? <==> id in labels && (includeDeleted || labels[id].Live())
      ensures r.Some? ==> r.value == labels[id]
    {
      if id in labels && (includeDeleted || labels[id].Live()) then Some(labels[id]) else None
    }

    /** `getLabels`: the live labels of the category, keyed by id; empty when there is none. */
    function GetLabels(categoryId: int): (r: map<int, Label>)
      reads this
      ensures forall k :: k in r <==> k in labels && labels[k].categoryId == categoryId && labels[k].Live()
      ensures forall k :: k in r ==> r[k] == labels[k]
    {
      map k | k in labels && labels[k].categoryId == categoryId && labels[k].Live() :: labels[k]
    }

    /** `createLabel`: a new label of a live category under a fresh id; NOT_FOUND otherwise. */
    method CreateLabel(categoryId: int, value: string, abbreviation: string, description: Option<string>,
                       settings: Option<string>, res: Resource) returns (r: Result<Label>)
      requires Valid()
      modifies this`labels, this`nextId, this`writes
      ensures Valid()
      ensures old(GetCategory(categoryId, false)).None? ==> r == Failure(NotFound) && unchanged(this)
      ensures old(GetCategory(categoryId, false)).Some? ==>
        && r == Success(Label(old(nextId), None, categoryId, value, abbreviation, description, settings, res))
        && old(nextId) !in old(labels)
        && labels == old(labels)[old(nextId) := r.value] && nextId == old(nextId) + 1 && writes == old(writes) + 1
    {
      if GetCategory(categoryId, false).None? {
        return Failure(NotFound);
      }
      var l := Label(nextId, None, categoryId, value, abbreviation, description, settings, res);
      labels := labels[nextId := l];
      nextId, writes := nextId + 1, writes + 1;
      r := Success(l);
    }

    /** `updateLabel`: replaces the stored label. */
    method UpdateLabel(l: Label)
      requires Valid() && l.id in labels
      modifies this`labels, this`writes
      ensures Valid()
      ensures labels == old(labels)[l.id := l] && writes == old(writes) + 1
    {
      labels := labels[l.id := l];
      writes := writes + 1;
    }

    /** `deleteLabel`: marks the stored label deleted and returns it. */
    method DeleteLabel(l: Label) returns (d: Label)
      requires Valid() && l.id in labels
      modifies this`labels, this`writes
      ensures Valid()
      ensures d == old(labels)[l.id].SoftDeleted()
      ensures labels == old(labels)[l.id := d] && writes == old(writes) + 1
      ensures GetLabel(l.id, false) == None && GetLabel(l.id, true) == Some(d)
    {
      d := labels[l.id].SoftDeleted();
      labels := labels[l.id := d];
      writes := writes + 1;
    }

    // ---- comments

    /** The live comment with that id. */
    function GetComment(id: int): (r: Option<Comment>)
      reads this
      ensures r.Some? <==> id in comments && comments[id].Live()
      ensures r.Some? ==> r.value == comments[id]
    {
      if id in comments && comments[id].Live() then Some(comments[id]) else None
    }

    /**
      `getComments`: the live comments of the annotation that reply to
      `replyToId` (top-level ones for none); empty when there is none.
     */
    function GetComments(annotationId: int, replyToId: Option<int>): (r: map<int, Comment>)
      reads this
      ensures forall k :: k in r <==> (k in comments && comments[k].annotationId == annotationId
                                       && comments[k].replyToId == replyToId && comments[k].Live())
      ensures forall k :: k in r ==> r[k] == comments[k]
    {
      map k | k in comments && comments[k].annotationId == annotationId && comments[k].replyToId == replyToId
                && comments[k].Live() :: comments[k]
    }

    /** `createComment`: a new comment under a fresh id (this call declares no failure). */
    method CreateComment(annotationId: int, replyToId: Option<int>, text: string, res: Resource)
      returns (c: Comment)
      requires Valid()
      modifies this`comments, this`nextId, this`writes
      ensures Valid()
      ensures c == Comment(old(nextId), annotationId, replyToId, text, res)
      ensures old(nextId) !in old(comments)
      ensures comments == old(comments)[c.id := c] && nextId == old(nextId) + 1 && writes == old(writes) + 1
    {
      c := Comment(nextId, annotationId, replyToId, text, res);
      comments := comments[nextId := c];
      nextId, writes := nextId + 1, writes + 1;
    }

    /** `updateComment`: replaces the stored comment. */
    method UpdateComment(c: Comment)
      requires Valid() && c.id in comments
      modifies this`comments, this`writes
      ensures Valid()
      ensures comments == old(comments)[c.id := c] && writes == old(writes) + 1
    {
      comments := comments[c.id := c];
      writes := writes + 1;
    }

    /** `deleteComment`: true exactly when the comment existed (live) and is now deleted. */
    method DeleteComment(c: Comment) returns (ok: bool)
      requires Valid()
      modifies this`comments, this`writes
      ensures Valid()
      ensures ok <==> old(GetComment(c.id)).Some?
      ensures ok ==> (comments == old(comments)[c.id := old(comments)[c.id].SoftDeleted()]
        && writes == old(writes) + 1)
      ensures ok ==> GetComment(c.id).None?
      ensures !ok ==> unchanged(this)
    {
      ok := c.id in comments && comments[c.id].Live();
      if ok {
        comments := comments[c.id := comments[c.id].SoftDeleted()];
        writes := writes + 1;
      }
    }
  }
}
