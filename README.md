# Extended annotations: REST decision logic over a soft-delete store

This project models the core of the Opencast extended-annotations backend in
Dafny. That core is the request-decision logic of the REST endpoint
`AbstractExtendedAnnotationsRestService`, run against the store contract
`ExtendedAnnotationService`.

The store (`AnnotationService.Store`) is a class with one map per table: users,
videos, tracks, annotations, scales, scale values, questionnaires, categories,
labels and comments. It has one id counter. Every row carries a `Resource`
envelope (access, tags, soft-delete mark). Deletion only sets the mark. Lookups
see live rows, unless they are asked to include deleted ones. A ghost counter
`writes` counts the persistence calls a handler makes. That counter is what lets
a contract say "no update call is made" or "one delete per scale value".

Each REST handler (`RestEndpoint.Endpoint`) is a method over that store. Its
contract gives the response (status, body, `Location` path) for every path
through the handler, in the order the code checks things. It also gives the new
state of every table the handler may touch. Error paths are stated as
`unchanged(eas)`.

`run` is split into two parts:
- `MandatoryPresent`: the loop over the mandatory parameters.
- `Recover`: the switch from a failure cause to a status.

The host platform's hooks (resource access, media-package lookup, video ACL
check) are total functions in a `Host` value the store is built with. The date
and JSON-tag parsers are total functions in a `Parsers` value the endpoint is
built with.

Location URIs are sequences of path segments (`Locations`). `Route` reads a path
back the way the endpoint's own `@Path` routes do. Every location builder is
proved to produce a path that routes to the entity it was built for.

Modules, one per file:
- `domain.dfy`: `Domain`, the option type, resources, entities, cause codes and host hooks.
- `text.dfy`: `Text`, Java's `trim`, `trimToNone` and `run`'s non-empty test.
- `listing.dfy`: `Listing`, lenient parameter parsing and offset/limit normalisation.
- `locations.dfy`: `Locations`, the location builders and the route reader.
- `service.dfy`: `AnnotationService`, the store.
- `endpoint.dfy`: `RestEndpoint`, the handlers.

Behaviour of the code worth knowing when reading the contracts:
- `run` rejects a mandatory parameter that is null or whose string form is
  empty (`StringUtils.isEmpty`, line 1257). A blank string such as `" "` passes.
- Deleting a label copied from a series label answers with the `Location` of the
  deleted master label, because the builder is given the label that
  `deleteLabel` returned (1076-1089).
- Deleting a scale, category or label answers 200 with the deleted entity. Only
  the user delete answers 204.
- Of the modelled handlers, only `postVideos` and `putVideo` consult
  `hasVideoAccess` (239, 267).

## Model

Source cells are paths relative to the repository root.

| member | source | states |
|---|---|---|
| RestEndpoint.MandatoryPresent | opencast-backend/annotation-impl/src/main/java/org/opencast/annotation/endpoint/AbstractExtendedAnnotationsRestService.java:1255-1259 | `run` admits the request exactly when every mandatory parameter is non-null and non-empty; every handler's contract answers 400 with the store unchanged otherwise |
| RestEndpoint.Recover | opencast-backend/annotation-impl/src/main/java/org/opencast/annotation/endpoint/AbstractExtendedAnnotationsRestService.java:1262-1273 | UNAUTHORIZED is the only cause answered 401, DUPLICATE the only one answered 409, NOT_FOUND the only one answered 404, and exactly the other causes give 500 |
| RestEndpoint.RecoverDistinguishesCauses | opencast-backend/annotation-impl/src/main/java/org/opencast/annotation/endpoint/AbstractExtendedAnnotationsRestService.java:1263-1269 | the three named causes are told apart by the status alone (equal status iff equal cause) |
| Text.Trim | opencast-backend/annotation-impl/src/main/java/org/opencast/annotation/endpoint/AbstractExtendedAnnotationsRestService.java:244 | `trim` gives a result no longer than its input, with no trimmable character at either end; that it is the maximal inner slice is `Text.TrimIsInnerSlice` |
| Text.TrimIsInnerSlice | opencast-backend/annotation-impl/src/main/java/org/opencast/annotation/endpoint/AbstractExtendedAnnotationsRestService.java:244 | `trim` gives the contiguous slice `s[i..j]` of its input whose cut-off prefix `s[..i]` and suffix `s[j..]` are blank and whose own ends are not trimmable, so exactly the leading and trailing characters at or below U+0020 are removed |
| Text.TrimIdempotent | opencast-backend/annotation-impl/src/main/java/org/opencast/annotation/endpoint/AbstractExtendedAnnotationsRestService.java:104 | trimming an already trimmed string changes nothing |
| Text.TrimToNoneSpec | opencast-backend/annotation-impl/src/main/java/org/opencast/annotation/endpoint/AbstractExtendedAnnotationsRestService.java:104 | `trimToNone` is none exactly for a null or blank string; otherwise it is the trimmed string, which is non-empty with no trimmable character at either end |
| Text.TrimEmptyIffBlank | opencast-backend/annotation-impl/src/main/java/org/opencast/annotation/endpoint/AbstractExtendedAnnotationsRestService.java:244 | `trim` gives the empty string if and only if every character is at or below U+0020 |
| Listing.ParseLenient | opencast-backend/annotation-impl/src/main/java/org/opencast/annotation/endpoint/AbstractExtendedAnnotationsRestService.java:244-246 | a null or blank parameter is absent, a present one the parser rejects is malformed, and otherwise the value is what the parser returns for the trimmed text |
| Listing.PositiveOrNone | opencast-backend/annotation-impl/src/main/java/org/opencast/annotation/endpoint/AbstractExtendedAnnotationsRestService.java:434-435 | an offset or limit is passed on (unchanged) exactly when it is positive |
| Listing.NormaliseQuery | opencast-backend/annotation-impl/src/main/java/org/opencast/annotation/endpoint/AbstractExtendedAnnotationsRestService.java:434-442 | the query is refused exactly when `since`, `tags-and` or `tags-or` is present but unparseable; otherwise offset/limit appear iff positive and then with their own values, a blank filter means no filter, and a present filter is the parser's value for the trimmed text |
| RestEndpoint.Endpoint.GetScalesResponse | opencast-backend/annotation-impl/src/main/java/org/opencast/annotation/endpoint/AbstractExtendedAnnotationsRestService.java:429-454 | 400 exactly when the named video is not live or a filter is malformed; otherwise 200 with the listing of exactly the normalised query: that parent, offset/limit passed iff positive and with their values, no date filter for a blank `since`, and `since`, `tags-and`, `tags-or` parsed from their trimmed text |
| Locations.RouteInvertsPathOf | opencast-backend/annotation-impl/src/main/java/org/opencast/annotation/endpoint/AbstractExtendedAnnotationsRestService.java:1277-1323 | every target's path routes back to that same target, so distinct entities get distinct locations |
| Locations.UserLocation | opencast-backend/annotation-impl/src/main/java/org/opencast/annotation/endpoint/AbstractExtendedAnnotationsRestService.java:1277-1279 | the user location routes to that user |
| Locations.VideoLocation | opencast-backend/annotation-impl/src/main/java/org/opencast/annotation/endpoint/AbstractExtendedAnnotationsRestService.java:1281-1283 | the video location routes to that video |
| Locations.ScaleLocationAsWritten | opencast-backend/annotation-impl/src/main/java/org/opencast/annotation/endpoint/AbstractExtendedAnnotationsRestService.java:1285-1291 | the scale location as coded: outside a video scope it routes to the template-scope scale |
| Locations.ScaleLocationAsWrittenUnroutable | opencast-backend/annotation-impl/src/main/java/org/opencast/annotation/endpoint/AbstractExtendedAnnotationsRestService.java:1287 | in a video scope the coded scale location matches no route at all |
| Locations.ScaleLocationsAgreeOutsideVideoScope | opencast-backend/annotation-impl/src/main/java/org/opencast/annotation/endpoint/AbstractExtendedAnnotationsRestService.java:1285-1291 | outside a video scope the corrected scale location is exactly the path the code builds |
| Locations.ScaleLocation | opencast-backend/annotation-impl/src/main/java/org/opencast/annotation/endpoint/AbstractExtendedAnnotationsRestService.java:1285-1291 | the corrected scale location routes to the scale, under its own video when the request is video scoped and the scale has one |
| Locations.ScaleValueLocation | opencast-backend/annotation-impl/src/main/java/org/opencast/annotation/endpoint/AbstractExtendedAnnotationsRestService.java:1293-1299 | the scale value location routes to that value of its scale, under the request's video if any |
| Locations.CategoryLocation | opencast-backend/annotation-impl/src/main/java/org/opencast/annotation/endpoint/AbstractExtendedAnnotationsRestService.java:1301-1307 | the category location routes to the category, under its own video when the request is video scoped and the category has one |
| Locations.QuestionnaireLocation | opencast-backend/annotation-impl/src/main/java/org/opencast/annotation/endpoint/AbstractExtendedAnnotationsRestService.java:1309-1315 | the questionnaire location routes to the questionnaire, under its own video under the same condition |
| Locations.LabelLocation | opencast-backend/annotation-impl/src/main/java/org/opencast/annotation/endpoint/AbstractExtendedAnnotationsRestService.java:1317-1323 | the label location routes to that label of its own category, under the request's video if any |
| AnnotationService.CreateResource | opencast-backend/annotation-api/src/main/java/org/opencast/annotation/api/ExtendedAnnotationService.java:738-747 | a new resource is live, has the requested access, and has the given tags or none |
| AnnotationService.UpdateResource | opencast-backend/annotation-api/src/main/java/org/opencast/annotation/api/ExtendedAnnotationService.java:749-758 | updating a resource keeps access and deletion, replaces the tags only when new ones are given, and is the identity without tags |
| AnnotationService.WithoutSeriesCopies | opencast-backend/annotation-api/src/main/java/org/opencast/annotation/api/ExtendedAnnotationService.java:584-593 | after the master update the master is stored as given, every other copy of it is deleted, and every category that is not a copy is untouched |
| AnnotationService.WithValuesOfScaleDeleted | opencast-backend/annotation-impl/src/main/java/org/opencast/annotation/endpoint/AbstractExtendedAnnotationsRestService.java:474-480 | after the cascade no value of the scale is live, values of other scales are untouched, and nothing is added or removed |
| AnnotationService.Store.GetUser | opencast-backend/annotation-api/src/main/java/org/opencast/annotation/api/ExtendedAnnotationService.java:74-83 | a user is found exactly when a live one is stored under the id, and it is that row |
| AnnotationService.Store.GetUserByExtId | opencast-backend/annotation-api/src/main/java/org/opencast/annotation/api/ExtendedAnnotationService.java:85-94 | a found user is a stored live user with that external id; none means no stored user with that external id is live |
| AnnotationService.Store.CreateUser | opencast-backend/annotation-api/src/main/java/org/opencast/annotation/api/ExtendedAnnotationService.java:26-42 | DUPLICATE with nothing changed when the external id is stored; otherwise exactly one new user under a fresh id |
| AnnotationService.Store.UpdateUser | opencast-backend/annotation-api/src/main/java/org/opencast/annotation/api/ExtendedAnnotationService.java:44-52 | the row is replaced unless another user holds the external id (DUPLICATE, nothing changed); keeping the external id never fails |
| AnnotationService.Store.DeleteUser | opencast-backend/annotation-api/src/main/java/org/opencast/annotation/api/ExtendedAnnotationService.java:54-63 | true iff the user existed (live), in which case it is soft-deleted and no longer found; false leaves the store unchanged |
| AnnotationService.Store.ClearAnnotationTables | opencast-backend/annotation-api/src/main/java/org/opencast/annotation/api/ExtendedAnnotationService.java:65-72 | the user, video, track, annotation and comment tables are empty |
| AnnotationService.Store.ClearSchemeTables | opencast-backend/annotation-api/src/main/java/org/opencast/annotation/api/ExtendedAnnotationService.java:65-72 | the scale, scale value, questionnaire, category and label tables are empty |
| AnnotationService.Store.EmptyStore | opencast-backend/annotation-api/src/main/java/org/opencast/annotation/api/ExtendedAnnotationService.java:65-72 | in an empty store every lookup finds nothing: by id (with or without deleted rows), by external id, and every listing by parent |
| AnnotationService.Store.ClearDatabase | opencast-backend/annotation-api/src/main/java/org/opencast/annotation/api/ExtendedAnnotationService.java:65-72 | clearing succeeds and leaves every table empty (so, by `EmptyStore`, every get returns none) |
| AnnotationService.Store.GetVideo | opencast-backend/annotation-api/src/main/java/org/opencast/annotation/api/ExtendedAnnotationService.java:130-139 | a video is found exactly when a live one is stored under the id |
| AnnotationService.Store.GetVideoByExtId | opencast-backend/annotation-api/src/main/java/org/opencast/annotation/api/ExtendedAnnotationService.java:141-150 | a found video is a stored live video with that external id; none means no such live video |
| AnnotationService.Store.CreateVideo | opencast-backend/annotation-api/src/main/java/org/opencast/annotation/api/ExtendedAnnotationService.java:96-107 | DUPLICATE with nothing changed when the external id is stored; otherwise exactly one new video under a fresh id |
| AnnotationService.Store.UpdateVideo | opencast-backend/annotation-api/src/main/java/org/opencast/annotation/api/ExtendedAnnotationService.java:109-117 | the row is replaced unless another video holds the external id; keeping the external id never fails |
| AnnotationService.Store.DeleteVideo | opencast-backend/annotation-api/src/main/java/org/opencast/annotation/api/ExtendedAnnotationService.java:119-128 | true iff the video existed (live), then soft-deleted and no longer found; false changes nothing |
| AnnotationService.Store.GetTrack | opencast-backend/annotation-api/src/main/java/org/opencast/annotation/api/ExtendedAnnotationService.java:193-202 | a track is found exactly when a live one is stored under the id |
| AnnotationService.Store.GetTracks | opencast-backend/annotation-api/src/main/java/org/opencast/annotation/api/ExtendedAnnotationService.java:204-211 | the listing holds exactly the live tracks of the video, so it is empty when none matches |
| AnnotationService.Store.CreateTrack | opencast-backend/annotation-api/src/main/java/org/opencast/annotation/api/ExtendedAnnotationService.java:152-170 | NOT_FOUND with nothing changed for a video that is not live; otherwise one new track under a fresh id |
| AnnotationService.Store.UpdateTrack | opencast-backend/annotation-api/src/main/java/org/opencast/annotation/api/ExtendedAnnotationService.java:172-180 | only that track's row changes, and it becomes the given track |
| AnnotationService.Store.DeleteTrack | opencast-backend/annotation-api/src/main/java/org/opencast/annotation/api/ExtendedAnnotationService.java:182-191 | true iff the track existed (live), then soft-deleted and no longer found; false changes nothing |
| AnnotationService.Store.GetAnnotation | opencast-backend/annotation-api/src/main/java/org/opencast/annotation/api/ExtendedAnnotationService.java:270-279 | an annotation is found exactly when a live one is stored under the id |
| AnnotationService.Store.GetAnnotations | opencast-backend/annotation-api/src/main/java/org/opencast/annotation/api/ExtendedAnnotationService.java:281-288 | the listing holds exactly the live annotations of the track, so it is empty when none matches |
| AnnotationService.Store.CreateAnnotation | opencast-backend/annotation-api/src/main/java/org/opencast/annotation/api/ExtendedAnnotationService.java:213-235 | NOT_FOUND with nothing changed for a track that is not live; otherwise one new annotation under a fresh id |
| AnnotationService.Store.CreateAnnotationFrom | opencast-backend/annotation-api/src/main/java/org/opencast/annotation/api/ExtendedAnnotationService.java:238-247 | the stored copy equals the given annotation except for its fresh id |
| AnnotationService.Store.UpdateAnnotation | opencast-backend/annotation-api/src/main/java/org/opencast/annotation/api/ExtendedAnnotationService.java:249-257 | only that annotation's row changes, and it becomes the given annotation |
| AnnotationService.Store.DeleteAnnotation | opencast-backend/annotation-api/src/main/java/org/opencast/annotation/api/ExtendedAnnotationService.java:259-268 | true iff the annotation existed (live), then soft-deleted and no longer found; false changes nothing |
| AnnotationService.Store.GetScale | opencast-backend/annotation-api/src/main/java/org/opencast/annotation/api/ExtendedAnnotationService.java:321-332 | a scale is found iff it is stored and either live or deleted rows are included |
| AnnotationService.Store.GetScales | opencast-backend/annotation-api/src/main/java/org/opencast/annotation/api/ExtendedAnnotationService.java:334-341 | the listing holds exactly the live scales of the video (the templates for none), so it is empty when none matches |
| AnnotationService.Store.CreateScale | opencast-backend/annotation-api/src/main/java/org/opencast/annotation/api/ExtendedAnnotationService.java:290-304 | NOT_FOUND for a named video that is not live; otherwise one new scale under a fresh id, which is a template iff it was created without a video |
| AnnotationService.Store.UpdateScale | opencast-backend/annotation-api/src/main/java/org/opencast/annotation/api/ExtendedAnnotationService.java:343-351 | only that scale's row changes, and it becomes the given scale |
| AnnotationService.Store.DeleteScale | opencast-backend/annotation-api/src/main/java/org/opencast/annotation/api/ExtendedAnnotationService.java:353-362 | the stored scale is marked deleted and returned; afterwards it is found only when deleted rows are included |
| AnnotationService.Store.GetScaleValue | opencast-backend/annotation-api/src/main/java/org/opencast/annotation/api/ExtendedAnnotationService.java:384-395 | a scale value is found iff it is stored and either live or deleted rows are included |
| AnnotationService.Store.GetScaleValues | opencast-backend/annotation-api/src/main/java/org/opencast/annotation/api/ExtendedAnnotationService.java:397-404 | the listing holds exactly the live values of the scale, so it is empty when none matches |
| AnnotationService.Store.CreateScaleValue | opencast-backend/annotation-api/src/main/java/org/opencast/annotation/api/ExtendedAnnotationService.java:364-382 | NOT_FOUND with nothing changed for a scale that is not live; otherwise one new value under a fresh id |
| AnnotationService.Store.UpdateScaleValue | opencast-backend/annotation-api/src/main/java/org/opencast/annotation/api/ExtendedAnnotationService.java:406-414 | only that value's row changes, and it becomes the given value |
| AnnotationService.Store.DeleteScaleValue | opencast-backend/annotation-api/src/main/java/org/opencast/annotation/api/ExtendedAnnotationService.java:416-425 | the stored value is marked deleted and returned; afterwards it is found only when deleted rows are included |
| AnnotationService.Store.GetQuestionnaire | opencast-backend/annotation-api/src/main/java/org/opencast/annotation/api/ExtendedAnnotationService.java:463-474 | a questionnaire is found iff it is stored and either live or deleted rows are included |
| AnnotationService.Store.GetQuestionnaires | opencast-backend/annotation-api/src/main/java/org/opencast/annotation/api/ExtendedAnnotationService.java:476-483 | the listing holds exactly the live questionnaires of the video (templates for none) |
| AnnotationService.Store.CreateQuestionnaire | opencast-backend/annotation-api/src/main/java/org/opencast/annotation/api/ExtendedAnnotationService.java:427-445 | NOT_FOUND for a named video that is not live; otherwise one new questionnaire under a fresh id |
| AnnotationService.Store.UpdateQuestionnaire | opencast-backend/annotation-api/src/main/java/org/opencast/annotation/api/ExtendedAnnotationService.java:485-493 | only that questionnaire's row changes, and it becomes the given one |
| AnnotationService.Store.DeleteQuestionnaire | opencast-backend/annotation-api/src/main/java/org/opencast/annotation/api/ExtendedAnnotationService.java:495-504 | the stored questionnaire is marked deleted and returned; afterwards it is found only with deleted rows |
| AnnotationService.Store.GetCategory | opencast-backend/annotation-api/src/main/java/org/opencast/annotation/api/ExtendedAnnotationService.java:551-562 | a category is found iff it is stored and either live or deleted rows are included |
| AnnotationService.Store.GetCategories | opencast-backend/annotation-api/src/main/java/org/opencast/annotation/api/ExtendedAnnotationService.java:564-572 | the listing holds exactly the live categories of the video (templates for none), restricted to the series when one is given |
| AnnotationService.Store.CreateCategory | opencast-backend/annotation-api/src/main/java/org/opencast/annotation/api/ExtendedAnnotationService.java:506-531 | NOT_FOUND for a named video that is not live; otherwise one new category under a fresh id |
| AnnotationService.Store.UpdateCategory | opencast-backend/annotation-api/src/main/java/org/opencast/annotation/api/ExtendedAnnotationService.java:574-582 | only that category's row changes (no series copy is touched), and it becomes the given category |
| AnnotationService.Store.UpdateCategoryAndDeleteOtherSeriesCategories | opencast-backend/annotation-api/src/main/java/org/opencast/annotation/api/ExtendedAnnotationService.java:584-593 | the master is stored with its new video and every other category copied from it is no longer live |
| AnnotationService.Store.DeleteCategory | opencast-backend/annotation-api/src/main/java/org/opencast/annotation/api/ExtendedAnnotationService.java:595-604 | the stored category is marked deleted and returned; afterwards it is found only with deleted rows |
| AnnotationService.Store.GetLabel | opencast-backend/annotation-api/src/main/java/org/opencast/annotation/api/ExtendedAnnotationService.java:628-639 | a label is found iff it is stored and either live or deleted rows are included |
| AnnotationService.Store.GetLabels | opencast-backend/annotation-api/src/main/java/org/opencast/annotation/api/ExtendedAnnotationService.java:641-648 | the listing holds exactly the live labels of the category, so it is empty when none matches |
| AnnotationService.Store.CreateLabel | opencast-backend/annotation-api/src/main/java/org/opencast/annotation/api/ExtendedAnnotationService.java:606-626 | NOT_FOUND with nothing changed for a category that is not live; otherwise one new label, with no series label, under a fresh id |
| AnnotationService.Store.UpdateLabel | opencast-backend/annotation-api/src/main/java/org/opencast/annotation/api/ExtendedAnnotationService.java:650-658 | only that label's row changes, and it becomes the given label |
| AnnotationService.Store.DeleteLabel | opencast-backend/annotation-api/src/main/java/org/opencast/annotation/api/ExtendedAnnotationService.java:660-669 | the stored label is marked deleted and returned; afterwards it is found only with deleted rows |
| AnnotationService.Store.GetComment | opencast-backend/annotation-api/src/main/java/org/opencast/annotation/api/ExtendedAnnotationService.java:686-693 | a comment is found exactly when a live one is stored under the id |
| AnnotationService.Store.GetComments | opencast-backend/annotation-api/src/main/java/org/opencast/annotation/api/ExtendedAnnotationService.java:695-702 | the listing holds exactly the live comments of the annotation replying to the given comment (top level for none) |
| AnnotationService.Store.CreateComment | opencast-backend/annotation-api/src/main/java/org/opencast/annotation/api/ExtendedAnnotationService.java:671-684 | always one new comment under a fresh id (this call declares no failure) |
| AnnotationService.Store.UpdateComment | opencast-backend/annotation-api/src/main/java/org/opencast/annotation/api/ExtendedAnnotationService.java:704-710 | only that comment's row changes, and it becomes the given comment |
| AnnotationService.Store.DeleteComment | opencast-backend/annotation-api/src/main/java/org/opencast/annotation/api/ExtendedAnnotationService.java:712-719 | true iff the comment existed (live), then soft-deleted and no longer found; false changes nothing |
| RestEndpoint.Endpoint.CreateUserResponse | opencast-backend/annotation-impl/src/main/java/org/opencast/annotation/endpoint/AbstractExtendedAnnotationsRestService.java:112-121 | 409 with nothing changed for a stored external id; otherwise 201 with the new user and its location, the user created and then stored again with a fresh resource (two writes) |
| RestEndpoint.Endpoint.UpdateUserResponse | opencast-backend/annotation-impl/src/main/java/org/opencast/annotation/endpoint/AbstractExtendedAnnotationsRestService.java:137-150 | 401 without access; no write when the rebuilt user equals the stored one; otherwise exactly that user's row is replaced; 200 with the resulting user |
| RestEndpoint.Endpoint.PostUsers | opencast-backend/annotation-impl/src/main/java/org/opencast/annotation/endpoint/AbstractExtendedAnnotationsRestService.java:102-124 | 400 for a missing extId or nickname, 409 when the external id is stored, else 201 with exactly one new user; error paths change nothing |
| RestEndpoint.Endpoint.PutUser | opencast-backend/annotation-impl/src/main/java/org/opencast/annotation/endpoint/AbstractExtendedAnnotationsRestService.java:129-166 | upsert by external id: the live user is updated (401 without access, no write if unchanged), otherwise a user is created (409 when a deleted user holds the id) |
| RestEndpoint.Endpoint.DeleteUser | opencast-backend/annotation-impl/src/main/java/org/opencast/annotation/endpoint/AbstractExtendedAnnotationsRestService.java:170-190 | 404 for no live user, 401 without access (nothing changed), else 204 and exactly that user soft-deleted |
| RestEndpoint.Endpoint.PostVideos | opencast-backend/annotation-impl/src/main/java/org/opencast/annotation/endpoint/AbstractExtendedAnnotationsRestService.java:232-254 | the checks in source order (no media package 400, no `annotate` 403, live extId 409, bad tags 400), then 201 with exactly one new video; every non-201 leaves the store unchanged |
| RestEndpoint.Endpoint.PutVideo | opencast-backend/annotation-impl/src/main/java/org/opencast/annotation/endpoint/AbstractExtendedAnnotationsRestService.java:259-306 | the same checks, then update of the live video (401 without access, no write if unchanged) or creation with the requested access and 201 |
| RestEndpoint.Endpoint.UpdateScaleResponse | opencast-backend/annotation-impl/src/main/java/org/opencast/annotation/endpoint/AbstractExtendedAnnotationsRestService.java:362-374 | 401 without access; no update call when the rebuilt scale equals the stored one; otherwise exactly that scale's row is replaced |
| RestEndpoint.Endpoint.PutScaleResponse | opencast-backend/annotation-impl/src/main/java/org/opencast/annotation/endpoint/AbstractExtendedAnnotationsRestService.java:348-387 | scale upsert: 400 for missing name, dead video or bad tags; a stored scale (even a deleted one) is updated as above; an absent id gives a new scale and 201 |
| RestEndpoint.SoftDeletedAtLiveValues | opencast-backend/annotation-impl/src/main/java/org/opencast/annotation/endpoint/AbstractExtendedAnnotationsRestService.java:475-480 | deleting exactly the live values of a scale, one by one, ends in the same table as deleting every value of the scale |
| RestEndpoint.Endpoint.DeleteValuesOfScale | opencast-backend/annotation-impl/src/main/java/org/opencast/annotation/endpoint/AbstractExtendedAnnotationsRestService.java:474-480 | the loop leaves no value of the scale live, touches no other value, and makes one delete call per live value |
| RestEndpoint.Endpoint.DeleteValueStep | opencast-backend/annotation-impl/src/main/java/org/opencast/annotation/endpoint/AbstractExtendedAnnotationsRestService.java:479 | one iteration soft-deletes one more value of the cascade with one write |
| RestEndpoint.Endpoint.DeleteScaleResponse | opencast-backend/annotation-impl/src/main/java/org/opencast/annotation/endpoint/AbstractExtendedAnnotationsRestService.java:462-495 | 400 for a dead video, 404 for an unknown id, 401 without access (nothing deleted); otherwise every value of the scale and then the scale are soft-deleted, and 200 |
| RestEndpoint.Endpoint.RebuiltCategory | opencast-backend/annotation-impl/src/main/java/org/opencast/annotation/endpoint/AbstractExtendedAnnotationsRestService.java:739-763 | the rebuilt category keeps the series category's video when that has one, else takes the request's; it carries the request's access and the updated tags |
| RestEndpoint.Endpoint.UpdateCategoryResponse | opencast-backend/annotation-impl/src/main/java/org/opencast/annotation/endpoint/AbstractExtendedAnnotationsRestService.java:736-775 | 401, then 400 for an unresolved series category; a changed category goes to the master update (pruning copies) iff no series category is named, else to the plain update; unchanged means no write |
| RestEndpoint.Endpoint.CreateCategoryResponse | opencast-backend/annotation-impl/src/main/java/org/opencast/annotation/endpoint/AbstractExtendedAnnotationsRestService.java:777-787 | 201 with exactly one new category whose resource has the request's access |
| RestEndpoint.Endpoint.PutCategoryChecked | opencast-backend/annotation-impl/src/main/java/org/opencast/annotation/endpoint/AbstractExtendedAnnotationsRestService.java:727-788 | 400 for a dead video or bad tags, then update of the category found with deleted rows included, or creation and 201 |
| RestEndpoint.Endpoint.PutCategoryResponse | opencast-backend/annotation-impl/src/main/java/org/opencast/annotation/endpoint/AbstractExtendedAnnotationsRestService.java:721-791 | the whole category upsert including the mandatory name; every status other than 200/201 leaves the store unchanged |
| RestEndpoint.Endpoint.DeleteCategoryResponse | opencast-backend/annotation-impl/src/main/java/org/opencast/annotation/endpoint/AbstractExtendedAnnotationsRestService.java:868-893 | 400 for a dead video or no live category, 401 without access, else exactly that category soft-deleted and 200 |
| RestEndpoint.Endpoint.UpdateLabelResponse | opencast-backend/annotation-impl/src/main/java/org/opencast/annotation/endpoint/AbstractExtendedAnnotationsRestService.java:953-966 | 401 without access; the rebuilt label keeps its series label; no write when unchanged, else exactly that row replaced |
| RestEndpoint.Endpoint.CreateLabelResponse | opencast-backend/annotation-impl/src/main/java/org/opencast/annotation/endpoint/AbstractExtendedAnnotationsRestService.java:969-976 | 201 with exactly one new label carrying the request's access |
| RestEndpoint.Endpoint.PutLabelResponse | opencast-backend/annotation-impl/src/main/java/org/opencast/annotation/endpoint/AbstractExtendedAnnotationsRestService.java:938-980 | 400 for missing value/abbreviation, dead video or category, bad tags; then label upsert (stored even if deleted: update; absent: create and 201) |
| RestEndpoint.Endpoint.DeleteLabelResponse | opencast-backend/annotation-impl/src/main/java/org/opencast/annotation/endpoint/AbstractExtendedAnnotationsRestService.java:1055-1103 | a label with a series label is not deleted: its live master is (404 when missing, 401 without access) and the copy stays; otherwise the label itself; each delete path changes exactly one row |

## Left out

- HTTP and JSON plumbing are not modelled: JAX-RS annotations, building `Response` objects, the `*Dto.toJson` bodies. A response is a status, the entity or listing it carries, and a `Location` path.
- The JSON tag parser (`parseToJsonMap`) and the ISO-8601 date parser (`parseDate`) are foreign libraries. They are parameters of the endpoint, as total functions returning an option.
- `hasResourceAccess`, `hasVideoAccess` and `findMediaPackage` depend on the host platform and the session. They are uninterpreted total functions. The access check sees only the modelled resource envelope (access, tags, deletion mark).
- Resource stamps (created/updated/deleted by and at) and the current principal are not modelled. For that reason:
  - the no-argument `createResource()` and `createResource(none())` both become a live resource with no access level and no tags;
  - the first-user workaround in `postUsers` and `putUser` is a create followed by an update with an equal fresh resource;
  - entity equality in the "only write when changed" checks ignores stamps.
- Floating-point fields (scale value `value`, annotation `start` and `duration`) are opaque 64-bit values. Only their identity matters.
- Persistence failures, transactions, logging and concurrency are not modelled. The service interface names no failure causes: each method only documents an error while storing or retrieving, and `createComment` declares none. Which cause arises when is a choice of this model, not a promise of the interface:
  - `CreateUser`, `UpdateUser`, `CreateVideo` and `UpdateVideo` fail with DUPLICATE when another stored row, deleted or not, holds the external id. That makes `PostUsers`, `PutUser`, `PostVideos` and `PutVideo` answer 409 when a deleted row holds it.
  - The creates that take a parent (track, annotation, scale, scale value, questionnaire, category, label) fail with NOT_FOUND when that parent is not live.
  - `run` only maps these causes to 409 and 404. No modelled handler reaches its 500 branch.
- Listings are maps from id to entity. The service's ordering, the paging and date/tag filtering applied inside `getScales(videoId, offset, limit, since, tagsAnd, tagsOr)` and the `toJson` offset are not modelled: `GetScalesResponse` returns the normalised query it hands over.
- The template-copy operations `createScaleFromTemplate`, `createQuestionnaireFromTemplate` and `createCategoryFromTemplate` are not modelled. They are the only way `seriesLabelId` gets set, and the model takes it as given on stored labels.
- `deleteResource` is not a separate operation: the store's deletes set the deletion mark directly.
- The handlers outside this core are not modelled: GET of single entities and lists other than `getScalesResponse`, `isAnnotateAdmin`, the scale value, label-list, questionnaire and comment handlers, and the video-scoped sub-resource class. Their routes appear only in `Locations.Route`, which the location builders are proved against.
- RestEndpoint.Endpoint.DeleteCategoryResponse: the 404 branch of `deleteCategoryResponse` (888) is not modelled. It cannot be reached, since a live category was found before the lookup that includes deleted rows.
- RestEndpoint.Endpoint.DeleteUser: the NOT_FOUND answer for a failed `deleteUser` (180) is in the method body, but no contract case covers it. It is unreachable, because the store's delete always succeeds for the live user just found.
- UpdateScaleResponse: its `Location` is built with the corrected `Locations.ScaleLocation`, not the as-written builder of line 1287 (see Findings). In a video-scoped request the code's `Location` is the path `Locations.ScaleLocationAsWritten` gives, which routes nowhere; the contract gives the path to the scale instead.
- PutScaleResponse: the `Location` of the 200 and 201 answers is the corrected `Locations.ScaleLocation`, not the as-written path of line 1287 (see Findings). The two agree outside a video scope (`Locations.ScaleLocationsAgreeOutsideVideoScope`).
- DeleteScaleResponse: the `Location` of the 200 answer is the corrected `Locations.ScaleLocation`, not the as-written path of line 1287 (see Findings). For a template scale deleted under a video scope the code gives a path with an empty option segment; the contract gives `scales/{id}`.
- DeleteScale: the scale passed in is used only for its id. The row stored under that id is soft-deleted and returned, where the service is given the entity itself. Every modelled caller passes the row it has just looked up, so the two agree at every call site.
- DeleteScaleValue: the scale value passed in is used only for its id. The row stored under that id is soft-deleted and returned, where the service is given the entity itself. Every modelled caller passes the row it has just looked up, so the two agree at every call site.
- DeleteQuestionnaire: the questionnaire passed in is used only for its id. The row stored under that id is soft-deleted and returned, where the service is given the entity itself. Every modelled caller passes the row it has just looked up, so the two agree at every call site.
- DeleteCategory: the category passed in is used only for its id. The row stored under that id is soft-deleted and returned, where the service is given the entity itself. Every modelled caller passes the row it has just looked up, so the two agree at every call site.
- DeleteLabel: the label passed in is used only for its id. The row stored under that id is soft-deleted and returned, where the service is given the entity itself. Every modelled caller passes the row it has just looked up, so the two agree at every call site.
- Integer widths are not modelled: ids, access levels, offsets and limits are unbounded integers, not Java `long`/`int`.

## Findings

| source | as written | input that shows it | evidently intended | confidence | as-written member | corrected member |
|---|---|---|---|---|---|---|
| opencast-backend/annotation-impl/src/main/java/org/opencast/annotation/endpoint/AbstractExtendedAnnotationsRestService.java:1287 | in a video-scoped request the scale location puts `s.getVideoId()`, an `Option<Long>`, into the URI as an object, where every other builder puts the unwrapped id | PUT /videos/5/scales/7 updating a scale of video 5: the `Location` has the option's string form as its second segment, which no route accepts | `videos/{videoId}/scales/{id}` with the unwrapped video id, falling back to `scales/{id}` for a template scale, as `categoryLocationUri` does | medium, not executed | Locations.ScaleLocationAsWritten, Locations.ScaleLocationAsWrittenUnroutable | Locations.ScaleLocation |
