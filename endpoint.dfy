/**
  The REST endpoint's decision logic. Every handler validates its mandatory
  parameters, resolves the parent it hangs under, looks its target up (with
  or without deleted rows), checks access, and then creates, updates (only
  when the rebuilt value differs), soft-deletes, cascades or redirects.
  Each path ends in one response; error paths leave the store untouched.
 */
module RestEndpoint {
  import opened Domain
  import opened Text
  import opened Listing
  import opened Locations
  import opened AnnotationService

  /** The entity or listing a response carries (the JSON encoding is not modelled). */
  datatype Body =
    | NoBody
    | UserBody(u: User)
    | VideoBody(v: Video)
    | ScaleBody(s: Scale)
    | CategoryBody(c: Category)
    | LabelBody(l: Label)
    | ListingBody(q: ListQuery)

  /** An HTTP response: status code, body and the `Location` header. */
  datatype Response = Response(status: int, body: Body, location: Option<Path>)

  const NOT_FOUND: Response := Response(404, NoBody, None)
  const UNAUTHORIZED: Response := Response(401, NoBody, None)
  const FORBIDDEN: Response := Response(403, NoBody, None)
  const BAD_REQUEST: Response := Response(400, NoBody, None)
  const CONFLICT: Response := Response(409, NoBody, None)
  const SERVER_ERROR: Response := Response(500, NoBody, None)
  const NO_CONTENT: Response := Response(204, NoBody, None)

  /**
    The first half of `run`: every mandatory parameter is non-null and its
    string form is non-empty. The loop stops at the first one that is not.
   */
  method MandatoryPresent(params: seq<Option<string>>) returns (ok: bool)
    ensures ok <==> forall p :: p in params ==> Present(p)
  {
    for i := 0 to |params|
      invariant forall j :: 0 <= j < i ==> Present(params[j])
    {
      if params[i].None? || |params[i].value| == 0 {
        assert params[i] in params;
        return false;
      }
    }
    return true;
  }

  /**
    The second half of `run`: the response for a service failure. The three
    named causes get distinct client-error statuses; every other cause is a
    server error.
   */
  function Recover(c: Cause): (r: Response)
    ensures r.body == NoBody && r.location == None
    ensures c.Other? <==> r.status == 500
    ensures c == Unauthorized <==> r.status == 401
    ensures c == Duplicate <==> r.status == 409
    ensures c == NotFound <==> r.status == 404
  {
    match c
    case Unauthorized => UNAUTHORIZED
    case Duplicate => CONFLICT
    case NotFound => NOT_FOUND
    case Other(_) => SERVER_ERROR
  }

  /** The cause of a failure can be read back from the status `run` answers with. */
  lemma {:induction false} RecoverDistinguishesCauses(a: Cause, b: Cause)
    requires !a.Other? && !b.Other?
    ensures Recover(a).status == Recover(b).status <==> a == b
  {
    match a {
      case Unauthorized => assert Recover(a).status == 401;
      case Duplicate => assert Recover(a).status == 409;
      case NotFound => assert Recover(a).status == 404;
    }
  }

  /** A non-empty set of ids has a member (the cascade below picks one at a time). */
  lemma NonEmptyHasMember(s: set<int>)
    requires s != {}
    ensures exists k :: k in s
  {
    if forall k :: k !in s {
      assert false;
    }
  }

  /**
    The scale values part-way through a cascade over the ids `ids`: the rows
    whose ids are in `ids` but no longer in `todo` are soft-deleted.
   */
  function SoftDeletedSoFar(m: map<int, ScaleValue>, ids: set<int>, todo: set<int>): (r: map<int, ScaleValue>)
    ensures r.Keys == m.Keys
    ensures forall k :: k in m ==> r[k] == if k in ids && k !in todo then m[k].SoftDeleted() else m[k]
  {
    map k | k in m :: if k in ids && k !in todo then m[k].SoftDeleted() else m[k]
  }

  /** Before the cascade starts nothing is deleted. */
  lemma SoftDeletedNothingYet(m: map<int, ScaleValue>, ids: set<int>)
    ensures SoftDeletedSoFar(m, ids, ids) == m
  {
  }

  /** Each step of the cascade soft-deletes one more row. */
  lemma SoftDeleteOneMore(m: map<int, ScaleValue>, ids: set<int>, todo: set<int>, k: int)
    requires k in m && k in ids && k in todo
    ensures SoftDeletedSoFar(m, ids, todo - {k}) == SoftDeletedSoFar(m, ids, todo)[k := m[k].SoftDeleted()]
  {
  }

  /** Taking one member out of a finite set shrinks it by one. */
  lemma {:induction false} CardinalityWithout(s: set<int>, k: int)
    requires k in s
    ensures |s - {k}| == |s| - 1
  {
    assert s == (s - {k}) + {k};
  }

  /**
    Soft-deleting exactly the live values of a scale is soft-deleting every
    value of the scale (a deleted one stays as it is).
   */
  lemma SoftDeletedAtLiveValues(m: map<int, ScaleValue>, scaleId: int, values: map<int, ScaleValue>)
    requires forall k :: k in values <==> k in m && m[k].scaleId == scaleId && m[k].Live()
    ensures SoftDeletedSoFar(m, values.Keys, {}) == WithValuesOfScaleDeleted(m, scaleId)
  {
    forall k | k in m
      ensures SoftDeletedSoFar(m, values.Keys, {})[k] == WithValuesOfScaleDeleted(m, scaleId)[k]
    {
      if m[k].scaleId == scaleId && !m[k].Live() {
        assert m[k].SoftDeleted() == m[k];
      }
    }
  }

  class Endpoint {
    const eas: Store
    const base: string
    const parsers: Parsers

    constructor (eas: Store, base: string, parsers: Parsers)
      ensures this.eas == eas && this.base == base && this.parsers == parsers
    {
      this.eas := eas;
      this.base := base;
      this.parsers := parsers;
    }

    /** `trimToNone(tags).map(parseToJsonMap)`. */
    function TagsParam(tags: Option<string>): Lenient<Tags> {
      ParseLenient(tags, parsers.parseTags)
    }

    /** The request names a video that is not live (the endpoints answer 400 for it). */
    predicate NoSuchVideo(videoId: Option<int>)
      reads eas
    {
      videoId.Some? && eas.GetVideo(videoId.value).None?
    }

    // ---- users

    /**
      The create path of both user endpoints: create the user, then store it
      again with a freshly created resource (the first user's resource has no
      owner until then). 409 when a stored user holds the external id.
     */
    method CreateUserResponse(extId: string, nickname: string, email: Option<string>) returns (r: Response)
      requires eas.Valid()
      modifies eas`users, eas`nextId, eas`writes
      ensures eas.Valid()
      ensures old(eas.UserExtIdStored(extId)) ==> r == CONFLICT && unchanged(eas)
      ensures !old(eas.UserExtIdStored(extId)) ==>
        var u := User(old(eas.nextId), extId, nickname, email, CreateResource(None, None));
        && r == Response(201, UserBody(u), Some(UserLocation(base, u)))
        && eas.users == old(eas.users)[u.id := u] && eas.nextId == u.id + 1 && eas.writes == old(eas.writes) + 2
    {
      var created := eas.CreateUser(extId, nickname, email, CreateResource(None, None));
      if created.Failure? {
        return Recover(created.cause);
      }
      var u := created.value;
      u := User(u.id, u.extId, u.nickname, u.email, CreateResource(None, None));
      var stored := eas.UpdateUser(u);
      r := Response(201, UserBody(u), Some(UserLocation(base, u)));
    }

    /**
      The update path of PUT /users for the live user `u`: 401 without access;
      the user rebuilt from the request is stored only when it differs.
     */
    method UpdateUserResponse(u: User, extId: string, nickname: string, email: Option<string>)
      returns (r: Response)
      requires eas.Valid() && u.id in eas.users && eas.users[u.id] == u && u.extId == extId
      modifies eas`users, eas`writes
      ensures eas.Valid()
      ensures
        var updated := User(u.id, extId, nickname, email, u.res);
        if !eas.HasResourceAccess(u.res) then
          r == UNAUTHORIZED && unchanged(eas)
        else if updated == u then
          r == Response(200, UserBody(u), Some(UserLocation(base, u))) && unchanged(eas)
        else
          && r == Response(200, UserBody(updated), Some(UserLocation(base, updated)))
          && eas.users == old(eas.users)[u.id := updated] && eas.writes == old(eas.writes) + 1
    {
      if !eas.HasResourceAccess(u.res) {
        return UNAUTHORIZED;
      }
      var updated := User(u.id, extId, nickname, email, UpdateResource(u.res, None));
      var current := u;
      if u != updated {
        var stored := eas.UpdateUser(updated);
        current := updated;
      }
      r := Response(200, UserBody(current), Some(UserLocation(base, current)));
    }

    /** POST /users: 409 when the external id is taken, otherwise a new user and 201. */
    method PostUsers(userExtId: Option<string>, nickname: Option<string>, email: Option<string>)
      returns (r: Response)
      requires eas.Valid()
      modifies eas`users, eas`nextId, eas`writes
      ensures eas.Valid()
      ensures !Present(userExtId) || !Present(nickname) ==> r == BAD_REQUEST && unchanged(eas)
      ensures Present(userExtId) && Present(nickname) && old(eas.UserExtIdStored(userExtId.value)) ==>
        r == CONFLICT && unchanged(eas)
      ensures Present(userExtId) && Present(nickname) && !old(eas.UserExtIdStored(userExtId.value)) ==>
        var u := User(old(eas.nextId), userExtId.value, nickname.value, TrimToNone(email),
                      CreateResource(None, None));
        && r == Response(201, UserBody(u), Some(UserLocation(base, u)))
        && eas.users == old(eas.users)[u.id := u] && eas.nextId == u.id + 1 && eas.writes == old(eas.writes) + 2
    {
      var emailo := TrimToNone(email);
      var ok := MandatoryPresent([userExtId, nickname]);
      if !ok {
        return BAD_REQUEST;
      }
      assert userExtId in [userExtId, nickname] && nickname in [userExtId, nickname];
      var found := eas.GetUserByExtId(userExtId.value);
      if found.Some? {
        return CONFLICT;
      }
      r := CreateUserResponse(userExtId.value, nickname.value, emailo);
    }

    /**
      PUT /users: updates the live user with that external id (401 without
      access; no write when nothing changes), or creates one (201).
     */
    method PutUser(userExtId: Option<string>, nickname: Option<string>, email: Option<string>)
      returns (r: Response)
      requires eas.Valid()
      modifies eas`users, eas`nextId, eas`writes
      ensures eas.Valid()
      ensures !Present(userExtId) || !Present(nickname) ==> r == BAD_REQUEST && unchanged(eas)
      ensures Present(userExtId) && Present(nickname) && old(eas.GetUserByExtId(userExtId.value)).Some? ==>
        var u := old(eas.GetUserByExtId(userExtId.value)).value;
        var updated := User(u.id, userExtId.value, nickname.value, TrimToNone(email), u.res);
        if !eas.HasResourceAccess(u.res) then
          r == UNAUTHORIZED && unchanged(eas)
        else if updated == u then
          r == Response(200, UserBody(u), Some(UserLocation(base, u))) && unchanged(eas)
        else
          && r == Response(200, UserBody(updated), Some(UserLocation(base, updated)))
          && eas.users == old(eas.users)[u.id := updated] && eas.writes == old(eas.writes) + 1
      ensures Present(userExtId) && Present(nickname) && old(eas.GetUserByExtId(userExtId.value)).None? ==>
        if old(eas.UserExtIdStored(userExtId.value)) then
          r == CONFLICT && unchanged(eas)
        else
          var u := User(old(eas.nextId), userExtId.value, nickname.value, TrimToNone(email),
                        CreateResource(None, None));
          && r == Response(201, UserBody(u), Some(UserLocation(base, u)))
          && eas.users == old(eas.users)[u.id := u] && eas.nextId == u.id + 1 && eas.writes == old(eas.writes) + 2
    {
      var emailo := TrimToNone(email);
      var ok := MandatoryPresent([userExtId, nickname]);
      if !ok {
        return BAD_REQUEST;
      }
      assert userExtId in [userExtId, nickname] && nickname in [userExtId, nickname];
      var found := eas.GetUserByExtId(userExtId.value);
      match found {
        case Some(u) => r := UpdateUserResponse(u, userExtId.value, nickname.value, emailo);
        case None => r := CreateUserResponse(userExtId.value, nickname.value, emailo);
      }
    }

    /** DELETE /users/{id}: 404 for no live user, 401 without access, else soft-delete and 204. */
    method DeleteUser(id: int) returns (r: Response)
      requires eas.Valid()
      modifies eas`users, eas`writes
      ensures eas.Valid()
      ensures old(eas.GetUser(id)).None? ==> r == NOT_FOUND && unchanged(eas)
      ensures old(eas.GetUser(id)).Some? && !eas.HasResourceAccess(old(eas.users)[id].res) ==>
        r == UNAUTHORIZED && unchanged(eas)
      ensures old(eas.GetUser(id)).Some? && eas.HasResourceAccess(old(eas.users)[id].res) ==>
        && r == NO_CONTENT
        && eas.users == old(eas.users)[id := old(eas.users)[id].SoftDeleted()] && eas.writes == old(eas.writes) + 1
        && eas.GetUser(id).None?
    {
      var found := eas.GetUser(id);
      match found {
        case None =>
          r := NOT_FOUND;
        case Some(u) =>
          if !eas.HasResourceAccess(u.res) {
            return UNAUTHORIZED;
          }
          var ok := eas.DeleteUser(u);
          r := if ok then NO_CONTENT else NOT_FOUND;
      }
    }

    // ---- videos

    /**
      POST /videos: checked in order: no media package 400, no `annotate`
      action 403, live video with that external id 409, malformed tags 400;
      then a new video and 201 (409 when a deleted video holds the id).
     */
    method PostVideos(videoExtId: Option<string>, tags: Option<string>) returns (r: Response)
      requires eas.Valid()
      modifies eas`videos, eas`nextId, eas`writes
      ensures eas.Valid()
      ensures r.status != 201 ==> unchanged(eas)
      ensures !Present(videoExtId) ==> r == BAD_REQUEST
      ensures Present(videoExtId) ==>
        var x := videoExtId.value;
        var mp := eas.FindMediaPackage(x);
        if mp.None? then r == BAD_REQUEST
        else if !eas.HasVideoAccess(mp.value, ANNOTATE_ACTION) then r == FORBIDDEN
        else if old(eas.GetVideoByExtId(x)).Some? then r == CONFLICT
        else if TagsParam(tags).Malformed? then r == BAD_REQUEST
        else if old(eas.VideoExtIdStored(x)) then r == CONFLICT
        else
          var v := Video(old(eas.nextId), x, CreateResource(None, TagsParam(tags).ToOption()));
          && r == Response(201, VideoBody(v), Some(VideoLocation(base, v)))
          && eas.videos == old(eas.videos)[v.id := v] && eas.nextId == v.id + 1 && eas.writes == old(eas.writes) + 1
    {
      var ok := MandatoryPresent([videoExtId]);
      if !ok {
        return BAD_REQUEST;
      }
      assert videoExtId in [videoExtId];
      var mp := eas.FindMediaPackage(videoExtId.value);
      if mp.None? {
        return BAD_REQUEST;
      }
      if !eas.HasVideoAccess(mp.value, ANNOTATE_ACTION) {
        return FORBIDDEN;
      }
      var found := eas.GetVideoByExtId(videoExtId.value);
      if found.Some? {
        return CONFLICT;
      }
      var tagsMap := TagsParam(tags);
      if tagsMap.Malformed? {
        return BAD_REQUEST;
      }
      var resource := CreateResource(None, tagsMap.ToOption());
      var created := eas.CreateVideo(videoExtId.value, resource);
      match created {
        case Failure(cause) => r := Recover(cause);
        case Success(v) => r := Response(201, VideoBody(v), Some(VideoLocation(base, v)));
      }
    }

    /**
      PUT /videos: the media-package, `annotate` and tag checks of POST, then
      an update of the live video with that external id (401 without access;
      no write when nothing changes) or a new video with the requested access.
     */
    method PutVideo(videoExtId: Option<string>, access: Option<int>, tags: Option<string>) returns (r: Response)
      requires eas.Valid()
      modifies eas`videos, eas`nextId, eas`writes
      ensures eas.Valid()
      ensures r.status != 200 && r.status != 201 ==> unchanged(eas)
      ensures !Present(videoExtId) ==> r == BAD_REQUEST
      ensures Present(videoExtId) ==>
        var x := videoExtId.value;
        var mp := eas.FindMediaPackage(x);
        if mp.None? then r == BAD_REQUEST
        else if !eas.HasVideoAccess(mp.value, ANNOTATE_ACTION) then r == FORBIDDEN
        else if TagsParam(tags).Malformed? then r == BAD_REQUEST
        else
        var newTags := TagsParam(tags).ToOption();
        if old(eas.GetVideoByExtId(x)).Some? then
          var v := old(eas.GetVideoByExtId(x)).value;
          var updated := Video(v.id, x, UpdateResource(v.res, newTags));
          if !eas.HasResourceAccess(v.res) then r == UNAUTHORIZED
          else if updated == v then
            r == Response(200, VideoBody(v), Some(VideoLocation(base, v))) && unchanged(eas)
          else
            && r == Response(200, VideoBody(updated), Some(VideoLocation(base, updated)))
            && eas.videos == old(eas.videos)[v.id := updated] && eas.writes == old(eas.writes) + 1
        else if old(eas.VideoExtIdStored(x)) then r == CONFLICT
        else
          var v := Video(old(eas.nextId), x, CreateResource(access, newTags));
          && r == Response(201, VideoBody(v), Some(VideoLocation(base, v)))
          && eas.videos == old(eas.videos)[v.id := v] && eas.nextId == v.id + 1 && eas.writes == old(eas.writes) + 1
    {
      var ok := MandatoryPresent([videoExtId]);
      if !ok {
        return BAD_REQUEST;
      }
      assert videoExtId in [videoExtId];
      var mp := eas.FindMediaPackage(videoExtId.value);
      if mp.None? {
        return BAD_REQUEST;
      }
      if !eas.HasVideoAccess(mp.value, ANNOTATE_ACTION) {
        return FORBIDDEN;
      }
      var tagsMap := TagsParam(tags);
      if tagsMap.Malformed? {
        return BAD_REQUEST;
      }
      var newTags := tagsMap.ToOption();
      var found := eas.GetVideoByExtId(videoExtId.value);
      match found {
        case Some(v) =>
          if !eas.HasResourceAccess(v.res) {
            return UNAUTHORIZED;
          }
          var updated := Video(v.id, videoExtId.value, UpdateResource(v.res, newTags));
          var current := v;
          if v != updated {
            var stored := eas.UpdateVideo(updated);
            current := updated;
          }
          r := Response(200, VideoBody(current), Some(VideoLocation(base, current)));
        case None =>
          var resource := CreateResource(None, newTags);
          var created := eas.CreateVideo(videoExtId.value, resource.(access := access));
          match created {
            case Failure(cause) => r := Recover(cause);
            case Success(v) => r := Response(201, VideoBody(v), Some(VideoLocation(base, v)));
          }
      }
    }

    // ---- scales

    /**
      The update path of PUT scale for the stored scale `s`: 401 without
      access; the scale rebuilt from the request is stored only when it differs.
     */
    method UpdateScaleResponse(s: Scale, videoId: Option<int>, name: string, description: Option<string>,
                               newTags: Option<Tags>) returns (r: Response)
      requires eas.Valid() && s.id in eas.scales && eas.scales[s.id] == s
      modifies eas`scales, eas`writes
      ensures eas.Valid()
      ensures
        var updated := Scale(s.id, videoId, name, description, UpdateResource(s.res, newTags));
        if !eas.HasResourceAccess(s.res) then r == UNAUTHORIZED && unchanged(eas)
        else if updated == s then
          r == Response(200, ScaleBody(s), Some(ScaleLocation(base, s, videoId.Some?)))
          && unchanged(eas)
        else
          && r == Response(200, ScaleBody(updated), Some(ScaleLocation(base, updated, videoId.Some?)))
          && eas.scales == old(eas.scales)[s.id := updated] && eas.writes == old(eas.writes) + 1
    {
      if !eas.HasResourceAccess(s.res) {
        return UNAUTHORIZED;
      }
      var updated := Scale(s.id, videoId, name, description, UpdateResource(s.res, newTags));
      var current := s;
      if s != updated {
        eas.UpdateScale(updated);
        current := updated;
      }
      r := Response(200, ScaleBody(current), Some(ScaleLocation(base, current, videoId.Some?)));
    }

    /**
      PUT /scales/{id} and PUT /videos/{videoId}/scales/{id}: 400 for a
      missing name, a video that is not live or malformed tags; then an upsert
      on the scale looked up with deleted rows included: 401 without access,
      no write when the rebuilt scale equals the stored one, and otherwise a
      new scale (under a fresh id, not the requested one) and 201.
     */
    method PutScaleResponse(videoId: Option<int>, id: int, name: Option<string>, description: Option<string>,
                            tags: Option<string>) returns (r: Response)
      requires eas.Valid()
      modifies eas`scales, eas`nextId, eas`writes
      ensures eas.Valid()
      ensures r.status != 200 && r.status != 201 ==> unchanged(eas)
      ensures !Present(name) ==> r == BAD_REQUEST
      ensures Present(name) ==>
        if old(NoSuchVideo(videoId)) || TagsParam(tags).Malformed? then r == BAD_REQUEST
        else
        var newTags := TagsParam(tags).ToOption();
        if old(eas.GetScale(id, true)).Some? then
          var s := old(eas.scales)[id];
          var updated := Scale(id, videoId, name.value, TrimToNone(description), UpdateResource(s.res, newTags));
          if !eas.HasResourceAccess(s.res) then r == UNAUTHORIZED
          else if updated == s then
            r == Response(200, ScaleBody(s), Some(ScaleLocation(base, s, videoId.Some?)))
            && unchanged(eas)
          else
            && r == Response(200, ScaleBody(updated), Some(ScaleLocation(base, updated, videoId.Some?)))
            && eas.scales == old(eas.scales)[id := updated] && eas.writes == old(eas.writes) + 1
        else
          var s := Scale(old(eas.nextId), videoId, name.value, TrimToNone(description),
                         CreateResource(None, newTags));
          && r == Response(201, ScaleBody(s), Some(ScaleLocation(base, s, videoId.Some?)))
          && eas.scales == old(eas.scales)[s.id := s] && eas.nextId == s.id + 1 && eas.writes == old(eas.writes) + 1
    {
      var ok := MandatoryPresent([name]);
      if !ok {
        return BAD_REQUEST;
      }
      assert name in [name];
      var tagsMap := TagsParam(tags);
      if NoSuchVideo(videoId) || tagsMap.Malformed? {
        return BAD_REQUEST;
      }
      var newTags := tagsMap.ToOption();
      var found := eas.GetScale(id, true);
      match found {
        case Some(s) => r := UpdateScaleResponse(s, videoId, name.value, TrimToNone(description), newTags);
        case None =>
          var created := eas.CreateScale(videoId, name.value, TrimToNone(description), CreateResource(None, newTags));
          r := Response(201, ScaleBody(created.value), Some(ScaleLocation(base, created.value, videoId.Some?)));
      }
    }

    /**
      GET /scales and GET /videos/{videoId}/scales: 400 when the video is not
      live or a filter is malformed, otherwise 200 with the normalised query
      handed to the service's filtered listing.
     */
    function GetScalesResponse(videoId: Option<int>, limit: int, offset: int, date: Option<string>,
                               tagsAnd: Option<string>, tagsOr: Option<string>): (r: Response)
      reads eas
      ensures r.status == 400 || r.status == 200
      ensures r.status == 400 <==>
        NoSuchVideo(videoId) || NormaliseQuery(parsers, videoId, limit, offset, date, tagsAnd, tagsOr).None?
      ensures r.status == 200 ==>
        && r.location == None
        && r.body == ListingBody(NormaliseQuery(parsers, videoId, limit, offset, date, tagsAnd, tagsOr).value)
        && r.body.q.parent == videoId
        && (r.body.q.offset.Some? <==> offset > 0) && (r.body.q.limit.Some? <==> limit > 0)
        && (r.body.q.offset.Some? ==> r.body.q.offset.value == offset)
        && (r.body.q.limit.Some? ==> r.body.q.limit.value == limit)
        && ((date.None? || Blank(date.value)) ==> r.body.q.since.None?)
        && (date.Some? && !Blank(date.value) ==> r.body.q.since == parsers.parseDate(Trim(date.value)))
        && (tagsAnd.Some? && !Blank(tagsAnd.value) ==> r.body.q.tagsAnd == parsers.parseTags(Trim(tagsAnd.value)))
        && (tagsOr.Some? && !Blank(tagsOr.value) ==> r.body.q.tagsOr == parsers.parseTags(Trim(tagsOr.value)))
    {
      var query := NormaliseQuery(parsers, videoId, limit, offset, date, tagsAnd, tagsOr);
      if query.None? || NoSuchVideo(videoId) then BAD_REQUEST
      else Response(200, ListingBody(query.value), None)
    }

    /**
      The cascade of a scale delete: each live value of the scale is
      soft-deleted, one service call each; nothing else changes.
     */
    method DeleteValuesOfScale(scaleId: int)
      requires eas.Valid()
      modifies eas`scaleValues, eas`writes
      ensures eas.Valid()
      ensures eas.scaleValues == WithValuesOfScaleDeleted(old(eas.scaleValues), scaleId)
      ensures eas.writes == old(eas.writes) + |old(eas.GetScaleValues(scaleId))|
    {
      var values := eas.GetScaleValues(scaleId);
      var todo := values.Keys;
      ghost var before := eas.scaleValues;
      SoftDeletedNothingYet(before, values.Keys);
      while todo != {}
        invariant eas.Valid() && todo <= values.Keys
        invariant eas.scaleValues == SoftDeletedSoFar(before, values.Keys, todo)
        invariant eas.writes + |todo| == old(eas.writes) + |values|
        decreases |todo|
      {
        NonEmptyHasMember(todo);
        var k :| k in todo;
        DeleteValueStep(before, values.Keys, todo, values[k]);
        CardinalityWithout(todo, k);
        todo := todo - {k};
      }
      SoftDeletedAtLiveValues(before, scaleId, values);
    }

    /** One step of the cascade: the service call that soft-deletes the stored value `v`. */
    method DeleteValueStep(ghost before: map<int, ScaleValue>, ghost ids: set<int>, ghost todo: set<int>,
                           v: ScaleValue)
      requires eas.Valid() && v.id in before && before[v.id] == v && v.id in ids && v.id in todo
      requires eas.scaleValues == SoftDeletedSoFar(before, ids, todo)
      modifies eas`scaleValues, eas`writes
      ensures eas.Valid()
      ensures eas.scaleValues == SoftDeletedSoFar(before, ids, todo - {v.id})
      ensures eas.writes == old(eas.writes) + 1
    {
      var deleted := eas.DeleteScaleValue(v);
      SoftDeleteOneMore(before, ids, todo, v.id);
    }

    /**
      DELETE /scales/{id} and DELETE /videos/{videoId}/scales/{id}: 400 when
      the video is not live, 404 when no scale (deleted or not) has the id,
      401 without access; otherwise every live value of the scale is
      soft-deleted, one write each, then the scale itself, and 200.
     */
    method DeleteScaleResponse(videoId: Option<int>, id: int) returns (r: Response)
      requires eas.Valid()
      modifies eas`scales, eas`scaleValues, eas`writes
      ensures eas.Valid()
      ensures r.status != 200 ==> unchanged(eas)
      ensures old(NoSuchVideo(videoId)) ==> r == BAD_REQUEST
      ensures !old(NoSuchVideo(videoId)) && old(eas.GetScale(id, true)).None? ==> r == NOT_FOUND
      ensures !old(NoSuchVideo(videoId)) && old(eas.GetScale(id, true)).Some? ==>
        var d := old(eas.scales)[id].SoftDeleted();
        if !eas.HasResourceAccess(old(eas.scales)[id].res) then r == UNAUTHORIZED
        else
          && r == Response(200, ScaleBody(d), Some(ScaleLocation(base, d, videoId.Some?)))
          && eas.scales == old(eas.scales)[id := d]
          && eas.scaleValues == WithValuesOfScaleDeleted(old(eas.scaleValues), id)
          && eas.writes == old(eas.writes) + |old(eas.GetScaleValues(id))| + 1
    {
      if NoSuchVideo(videoId) {
        return BAD_REQUEST;
      }
      var found := eas.GetScale(id, true);
      if found.None? {
        return NOT_FOUND;
      }
      var s := found.value;
      if !eas.HasResourceAccess(s.res) {
        return UNAUTHORIZED;
      }
      DeleteValuesOfScale(s.id);
      var d := eas.DeleteScale(s);
      r := Response(200, ScaleBody(d), Some(ScaleLocation(base, d, videoId.Some?)));
    }

    // ---- categories

    /** The series category a request names, looked up among live categories. */
    function SeriesCategory(seriesCategoryId: Option<int>): Option<Category>
      reads eas
    {
      if seriesCategoryId.Some? then eas.GetCategory(seriesCategoryId.value, false) else None
    }

    /**
      The category PUT rebuilds from the request for the stored category `c`,
      given the series category the request resolved to. It keeps the series
      category's video when the series category has one (so updating a master
      from a local copy does not move the master), and takes the request's
      video otherwise; its access is the request's.
     */
    static function RebuiltCategory(c: Category, series: Option<Category>, seriesExtId: Option<string>,
                                    seriesCategoryId: Option<int>, videoId: Option<int>, scaleId: Option<int>,
                                    name: string, description: Option<string>, settings: Option<string>,
                                    access: Option<int>, newTags: Option<Tags>): (u: Category)
      ensures u.id == c.id && u.seriesExtId == seriesExtId && u.seriesCategoryId == seriesCategoryId
      ensures u.videoId == if series.Some? && series.value.videoId.Some? then series.value.videoId else videoId
      ensures u.res.access == access && u.res.deleted == c.res.deleted
      ensures u.res.tags == if newTags.Some? then newTags.value else c.res.tags
    {
      var seriesVideoId := if series.Some? then series.value.videoId else None;
      Category(c.id, seriesExtId, seriesCategoryId, seriesVideoId.OrElse(videoId), scaleId, name, description,
               settings, UpdateResource(c.res, newTags).(access := access))
    }

    /**
      The update path of PUT category for the stored category `c`: 401
      without access, 400 when a named series category is not live; a changed
      category goes to the master update that prunes the series copies when
      no series category is named, and to the plain update otherwise.
     */
    method UpdateCategoryResponse(c: Category, seriesExtId: Option<string>, seriesCategoryId: Option<int>,
                                  videoId: Option<int>, scaleId: Option<int>, name: string,
                                  description: Option<string>, settings: Option<string>, access: Option<int>,
                                  newTags: Option<Tags>) returns (r: Response)
      requires eas.Valid() && c.id in eas.categories && eas.categories[c.id] == c
      modifies eas`categories, eas`writes
      ensures eas.Valid()
      ensures r.status != 200 ==> unchanged(eas)
      ensures !eas.HasResourceAccess(c.res) ==> r == UNAUTHORIZED
      ensures eas.HasResourceAccess(c.res) ==>
        if seriesCategoryId.Some? && old(SeriesCategory(seriesCategoryId)).None? then r == BAD_REQUEST
        else
          var u := RebuiltCategory(c, old(SeriesCategory(seriesCategoryId)), seriesExtId, seriesCategoryId, videoId,
                                   scaleId, name, description, settings, access, newTags);
          && r == Response(200, CategoryBody(u), Some(CategoryLocation(base, u, videoId.Some?)))
          && (u == c ==> unchanged(eas))
          && (u != c && seriesCategoryId.None? ==>
                (eas.categories == WithoutSeriesCopies(old(eas.categories), u) && eas.writes == old(eas.writes) + 1))
          && (u != c && seriesCategoryId.Some? ==>
                (eas.categories == old(eas.categories)[c.id := u] && eas.writes == old(eas.writes) + 1))
    {
      if !eas.HasResourceAccess(c.res) {
        return UNAUTHORIZED;
      }
      if seriesCategoryId.Some? && SeriesCategory(seriesCategoryId).None? {
        return BAD_REQUEST;
      }
      var updated := RebuiltCategory(c, SeriesCategory(seriesCategoryId), seriesExtId, seriesCategoryId, videoId,
                                     scaleId, name, description, settings, access, newTags);
      if c != updated {
        if seriesCategoryId.None? {
          eas.UpdateCategoryAndDeleteOtherSeriesCategories(updated);
        } else {
          eas.UpdateCategory(updated);
        }
      }
      r := Response(200, CategoryBody(updated), Some(CategoryLocation(base, updated, videoId.Some?)));
    }

    /**
      The create path of PUT category: a new category under a fresh id whose
      resource carries the request's access, and 201.
     */
    method CreateCategoryResponse(seriesExtId: Option<string>, seriesCategoryId: Option<int>, videoId: Option<int>,
                                  scaleId: Option<int>, name: string, description: Option<string>,
                                  settings: Option<string>, access: Option<int>, newTags: Option<Tags>)
      returns (r: Response)
      requires eas.Valid() && !NoSuchVideo(videoId)
      modifies eas`categories, eas`nextId, eas`writes
      ensures eas.Valid()
      ensures
        var c := Category(old(eas.nextId), seriesExtId, seriesCategoryId, videoId, scaleId, name, description,
                          settings, CreateResource(access, newTags));
        && r == Response(201, CategoryBody(c), Some(CategoryLocation(base, c, videoId.Some?)))
        && eas.categories == old(eas.categories)[c.id := c] && eas.nextId == c.id + 1
          && eas.writes == old(eas.writes) + 1
    {
      var resource := CreateResource(None, newTags);
      var created := eas.CreateCategory(seriesExtId, seriesCategoryId, videoId, scaleId, name, description,
                                        settings, resource.(access := access));
      r := Response(201, CategoryBody(created.value), Some(CategoryLocation(base, created.value, videoId.Some?)));
    }

    /**
      PUT category once its name is known to be present: 400 for a video that
      is not live or malformed tags; then an update of the category looked up
      with deleted rows included, or a new category (under a fresh id) with
      the request's access and 201.
     */
    method PutCategoryChecked(id: int, seriesExtId: Option<string>, seriesCategoryId: Option<int>,
                              videoId: Option<int>, name: string, description: Option<string>,
                              scaleId: Option<int>, settings: Option<string>, access: Option<int>,
                              tags: Option<string>) returns (r: Response)
      requires eas.Valid()
      modifies eas`categories, eas`nextId, eas`writes
      ensures eas.Valid()
      ensures r.status != 200 && r.status != 201 ==> unchanged(eas)
      ensures
        if old(NoSuchVideo(videoId)) || TagsParam(tags).Malformed? then r == BAD_REQUEST
        else
        var newTags := TagsParam(tags).ToOption();
        if old(eas.GetCategory(id, true)).Some? then
          var c := old(eas.categories)[id];
          if !eas.HasResourceAccess(c.res) then r == UNAUTHORIZED
          else if seriesCategoryId.Some? && old(SeriesCategory(seriesCategoryId)).None? then r == BAD_REQUEST
          else
            var u := RebuiltCategory(c, old(SeriesCategory(seriesCategoryId)), seriesExtId, seriesCategoryId,
                                     videoId, scaleId, name, TrimToNone(description), TrimToNone(settings),
                                     access, newTags);
            && r == Response(200, CategoryBody(u), Some(CategoryLocation(base, u, videoId.Some?)))
            && (u == c ==> unchanged(eas))
            && (u != c && seriesCategoryId.None? ==>
                  (eas.categories == WithoutSeriesCopies(old(eas.categories), u)
                    && eas.writes == old(eas.writes) + 1))
            && (u != c && seriesCategoryId.Some? ==>
                  (eas.categories == old(eas.categories)[id := u] && eas.writes == old(eas.writes) + 1))
        else
          var c := Category(old(eas.nextId), seriesExtId, seriesCategoryId, videoId, scaleId, name,
                            TrimToNone(description), TrimToNone(settings), CreateResource(access, newTags));
          && r == Response(201, CategoryBody(c), Some(CategoryLocation(base, c, videoId.Some?)))
          && eas.categories == old(eas.categories)[c.id := c] && eas.nextId == c.id + 1
            && eas.writes == old(eas.writes) + 1
    {
      var tagsMap := TagsParam(tags);
      if NoSuchVideo(videoId) || tagsMap.Malformed? {
        return BAD_REQUEST;
      }
      var newTags := tagsMap.ToOption();
      var found := eas.GetCategory(id, true);
      match found {
        case Some(c) =>
          r := UpdateCategoryResponse(c, seriesExtId, seriesCategoryId, videoId, scaleId, name,
                                      TrimToNone(description), TrimToNone(settings), access, newTags);
        case None =>
          r := CreateCategoryResponse(seriesExtId, seriesCategoryId, videoId, scaleId, name,
                                      TrimToNone(description), TrimToNone(settings), access, newTags);
      }
    }

    /**
      PUT /categories/{id} and PUT /videos/{videoId}/categories/{id}: 400 for
      a missing name, then as `PutCategoryChecked`.
     */
    method PutCategoryResponse(id: int, seriesExtId: Option<string>, seriesCategoryId: Option<int>,
                               videoId: Option<int>, name: Option<string>, description: Option<string>,
                               scaleId: Option<int>, settings: Option<string>, access: Option<int>,
                               tags: Option<string>) returns (r: Response)
      requires eas.Valid()
      modifies eas`categories, eas`nextId, eas`writes
      ensures eas.Valid()
      ensures r.status != 200 && r.status != 201 ==> unchanged(eas)
      ensures !Present(name) ==> r == BAD_REQUEST
      ensures Present(name) ==>
        if old(NoSuchVideo(videoId)) || TagsParam(tags).Malformed? then r == BAD_REQUEST
        else
        var newTags := TagsParam(tags).ToOption();
        if old(eas.GetCategory(id, true)).Some? then
          var c := old(eas.categories)[id];
          if !eas.HasResourceAccess(c.res) then r == UNAUTHORIZED
          else if seriesCategoryId.Some? && old(SeriesCategory(seriesCategoryId)).None? then r == BAD_REQUEST
          else
            var u := RebuiltCategory(c, old(SeriesCategory(seriesCategoryId)), seriesExtId, seriesCategoryId,
                                     videoId, scaleId, name.value, TrimToNone(description), TrimToNone(settings),
                                     access, newTags);
            && r == Response(200, CategoryBody(u), Some(CategoryLocation(base, u, videoId.Some?)))
            && (u == c ==> unchanged(eas))
            && (u != c && seriesCategoryId.None? ==>
                  (eas.categories == WithoutSeriesCopies(old(eas.categories), u)
                    && eas.writes == old(eas.writes) + 1))
            && (u != c && seriesCategoryId.Some? ==>
                  (eas.categories == old(eas.categories)[id := u] && eas.writes == old(eas.writes) + 1))
        else
          var c := Category(old(eas.nextId), seriesExtId, seriesCategoryId, videoId, scaleId, name.value,
                            TrimToNone(description), TrimToNone(settings), CreateResource(access, newTags));
          && r == Response(201, CategoryBody(c), Some(CategoryLocation(base, c, videoId.Some?)))
          && eas.categories == old(eas.categories)[c.id := c] && eas.nextId == c.id + 1
            && eas.writes == old(eas.writes) + 1
    {
      var ok := MandatoryPresent([name]);
      if !ok {
        return BAD_REQUEST;
      }
      assert name in [name];
      r := PutCategoryChecked(id, seriesExtId, seriesCategoryId, videoId, name.value, description, scaleId, settings,
                              access, tags);
    }

    /**
      DELETE /categories/{id} and DELETE /videos/{videoId}/categories/{id}:
      400 when the video is not live or no live category has the id (checked
      first, so the later lookup that includes deleted rows always finds it),
      401 without access, otherwise soft-delete and 200.
     */
    method DeleteCategoryResponse(videoId: Option<int>, categoryId: int) returns (r: Response)
      requires eas.Valid()
      modifies eas`categories, eas`writes
      ensures eas.Valid()
      ensures r.status != 200 ==> unchanged(eas)
      ensures old(NoSuchVideo(videoId)) || old(eas.GetCategory(categoryId, false)).None? ==> r == BAD_REQUEST
      ensures !old(NoSuchVideo(videoId)) && old(eas.GetCategory(categoryId, false)).Some? ==>
        var c := old(eas.categories)[categoryId];
        var d := c.SoftDeleted();
        if !eas.HasResourceAccess(c.res) then r == UNAUTHORIZED
        else
          && r == Response(200, CategoryBody(d), Some(CategoryLocation(base, d, videoId.Some?)))
          && eas.categories == old(eas.categories)[categoryId := d] && eas.writes == old(eas.writes) + 1
    {
      if NoSuchVideo(videoId) || eas.GetCategory(categoryId, false).None? {
        return BAD_REQUEST;
      }
      var c := eas.GetCategory(categoryId, true).value;
      if !eas.HasResourceAccess(c.res) {
        return UNAUTHORIZED;
      }
      var d := eas.DeleteCategory(c);
      r := Response(200, CategoryBody(d), Some(CategoryLocation(base, d, videoId.Some?)));
    }

    // ---- labels

    /**
      The update path of PUT label for the stored label `l`: 401 without
      access; the label rebuilt from the request (keeping its series label)
      is stored only when it differs.
     */
    method UpdateLabelResponse(l: Label, videoId: Option<int>, categoryId: int, value: string, abbreviation: string,
                               description: Option<string>, settings: Option<string>, newTags: Option<Tags>)
      returns (r: Response)
      requires eas.Valid() && l.id in eas.labels && eas.labels[l.id] == l
      modifies eas`labels, eas`writes
      ensures eas.Valid()
      ensures
        var updated := Label(l.id, l.seriesLabelId, categoryId, value, abbreviation, description, settings,
                             UpdateResource(l.res, newTags));
        if !eas.HasResourceAccess(l.res) then r == UNAUTHORIZED && unchanged(eas)
        else if updated == l then
          r == Response(200, LabelBody(l), Some(LabelLocation(base, l, videoId))) && unchanged(eas)
        else
          && r == Response(200, LabelBody(updated), Some(LabelLocation(base, updated, videoId)))
          && eas.labels == old(eas.labels)[l.id := updated] && eas.writes == old(eas.writes) + 1
    {
      if !eas.HasResourceAccess(l.res) {
        return UNAUTHORIZED;
      }
      var updated := Label(l.id, l.seriesLabelId, categoryId, value, abbreviation, description, settings,
                           UpdateResource(l.res, newTags));
      var current := l;
      if l != updated {
        eas.UpdateLabel(updated);
        current := updated;
      }
      r := Response(200, LabelBody(current), Some(LabelLocation(base, current, videoId)));
    }

    /** The create path of PUT label: a new label under a fresh id, and 201. */
    method CreateLabelResponse(videoId: Option<int>, categoryId: int, value: string, abbreviation: string,
                               description: Option<string>, settings: Option<string>, access: Option<int>,
                               newTags: Option<Tags>) returns (r: Response)
      requires eas.Valid() && eas.GetCategory(categoryId, false).Some?
      modifies eas`labels, eas`nextId, eas`writes
      ensures eas.Valid()
      ensures
        var l := Label(old(eas.nextId), None, categoryId, value, abbreviation, description, settings,
                       CreateResource(access, newTags));
        && r == Response(201, LabelBody(l), Some(LabelLocation(base, l, videoId)))
        && eas.labels == old(eas.labels)[l.id := l] && eas.nextId == l.id + 1 && eas.writes == old(eas.writes) + 1
    {
      var created := eas.CreateLabel(categoryId, value, abbreviation, description, settings,
                                     CreateResource(access, newTags));
      r := Response(201, LabelBody(created.value), Some(LabelLocation(base, created.value, videoId)));
    }

    /**
      PUT /categories/{categoryId}/labels/{id} (also under a video): 400 for
      a missing value or abbreviation, a video or category that is not live,
      or malformed tags; then an update of the label looked up with deleted
      rows included, or a new label (under a fresh id) and 201.
     */
    method PutLabelResponse(videoId: Option<int>, categoryId: int, id: int, value: Option<string>,
                            abbreviation: Option<string>, description: Option<string>, access: Option<int>,
                            settings: Option<string>, tags: Option<string>) returns (r: Response)
      requires eas.Valid()
      modifies eas`labels, eas`nextId, eas`writes
      ensures eas.Valid()
      ensures r.status != 200 && r.status != 201 ==> unchanged(eas)
      ensures !Present(value) || !Present(abbreviation) ==> r == BAD_REQUEST
      ensures Present(value) && Present(abbreviation) ==>
        if old(NoSuchVideo(videoId)) || old(eas.GetCategory(categoryId, false)).None? || TagsParam(tags).Malformed?
        then r == BAD_REQUEST
        else
        var newTags := TagsParam(tags).ToOption();
        if old(eas.GetLabel(id, true)).Some? then
          var l := old(eas.labels)[id];
          var updated := Label(id, l.seriesLabelId, categoryId, value.value, abbreviation.value,
                               TrimToNone(description), TrimToNone(settings), UpdateResource(l.res, newTags));
          if !eas.HasResourceAccess(l.res) then r == UNAUTHORIZED
          else if updated == l then
            r == Response(200, LabelBody(l), Some(LabelLocation(base, l, videoId))) && unchanged(eas)
          else
            && r == Response(200, LabelBody(updated), Some(LabelLocation(base, updated, videoId)))
            && eas.labels == old(eas.labels)[id := updated] && eas.writes == old(eas.writes) + 1
        else
          var l := Label(old(eas.nextId), None, categoryId, value.value, abbreviation.value, TrimToNone(description),
                         TrimToNone(settings), CreateResource(access, newTags));
          && r == Response(201, LabelBody(l), Some(LabelLocation(base, l, videoId)))
          && eas.labels == old(eas.labels)[l.id := l] && eas.nextId == l.id + 1 && eas.writes == old(eas.writes) + 1
    {
      var ok := MandatoryPresent([value, abbreviation]);
      if !ok {
        return BAD_REQUEST;
      }
      assert value in [value, abbreviation] && abbreviation in [value, abbreviation];
      var tagsMap := TagsParam(tags);
      if NoSuchVideo(videoId) || eas.GetCategory(categoryId, false).None? || tagsMap.Malformed? {
        return BAD_REQUEST;
      }
      var newTags := tagsMap.ToOption();
      var found := eas.GetLabel(id, true);
      match found {
        case Some(l) =>
          r := UpdateLabelResponse(l, videoId, categoryId, value.value, abbreviation.value, TrimToNone(description),
                                   TrimToNone(settings), newTags);
        case None =>
          r := CreateLabelResponse(videoId, categoryId, value.value, abbreviation.value, TrimToNone(description),
                                   TrimToNone(settings), access, newTags);
      }
    }

    /**
      DELETE /categories/{categoryId}/labels/{id} (also under a video): 400
      when the video or the category is not live, 404 when no label (deleted
      or not) has the id, 401 without access. A label copied from a series
      label is not deleted itself: the live master it names is (404 when
      there is none, 401 without access to it). Any other label is
      soft-deleted. Either way 200 with the deleted label.
     */
    method DeleteLabelResponse(videoId: Option<int>, categoryId: int, id: int) returns (r: Response)
      requires eas.Valid()
      modifies eas`labels, eas`writes
      ensures eas.Valid()
      ensures r.status != 200 ==> unchanged(eas)
      ensures old(NoSuchVideo(videoId)) || old(eas.GetCategory(categoryId, false)).None? ==> r == BAD_REQUEST
      ensures !old(NoSuchVideo(videoId)) && old(eas.GetCategory(categoryId, false)).Some? ==>
        if old(eas.GetLabel(id, true)).None? then r == NOT_FOUND
        else
        var l := old(eas.labels)[id];
        if !eas.HasResourceAccess(l.res) then r == UNAUTHORIZED
        else if l.seriesLabelId.Some? then
          var m := l.seriesLabelId.value;
          if old(eas.GetLabel(m, false)).None? then r == NOT_FOUND
          else if !eas.HasResourceAccess(old(eas.labels)[m].res) then r == UNAUTHORIZED
          else
            var d := old(eas.labels)[m].SoftDeleted();
            && r == Response(200, LabelBody(d), Some(LabelLocation(base, d, videoId)))
            && eas.labels == old(eas.labels)[m := d] && eas.writes == old(eas.writes) + 1
        else
          var d := l.SoftDeleted();
          && r == Response(200, LabelBody(d), Some(LabelLocation(base, d, videoId)))
          && eas.labels == old(eas.labels)[id := d] && eas.writes == old(eas.writes) + 1
    {
      if NoSuchVideo(videoId) || eas.GetCategory(categoryId, false).None? {
        return BAD_REQUEST;
      }
      var found := eas.GetLabel(id, true);
      if found.None? {
        return NOT_FOUND;
      }
      var l := found.value;
      if !eas.HasResourceAccess(l.res) {
        return UNAUTHORIZED;
      }
      if l.seriesLabelId.Some? {
        // A copy of a series label: the delete goes to the master instead.
        var master := eas.GetLabel(l.seriesLabelId.value, false);
        if master.None? {
          return NOT_FOUND;
        }
        if !eas.HasResourceAccess(master.value.res) {
          return UNAUTHORIZED;
        }
        var d := eas.DeleteLabel(master.value);
        r := Response(200, LabelBody(d), Some(LabelLocation(base, d, videoId)));
      } else {
        var d := eas.DeleteLabel(l);
        r := Response(200, LabelBody(d), Some(LabelLocation(base, d, videoId)));
      }
    }
  }
}
