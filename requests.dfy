/**
  Help requests: the Request entity and its persistence callbacks, the
  mapper that builds a new Request from the create form, and the
  RequestService operations over the requests and request_images tables
  (update with image removal and addition, cascading delete, the paged
  status listing and the lookup by id). Clocks and generated UUIDs are
  parameters; the S3 deletes are reported as the keys they were issued for.
 */
module Requests {
  import opened Wrappers
  import opened Ordering

  const Open := "OPEN"
  const Medium := "MEDIUM"

  /** A row of request_images. The id is generated by the database, so it
      is missing on an image that has not been saved yet. */
  datatype RequestImage = RequestImage(
    id: Option<string>,
    url: Option<string>,
    primaryImage: bool,
    s3Key: Option<string>,
    requestId: string)

  /** The persistent columns of a Request. Double columns are reals; the
      instants are seconds on one clock. */
  datatype RequestRow = RequestRow(
    id: string,
    userId: Option<string>,
    title: Option<string>,
    description: Option<string>,
    category: Option<string>,
    reward: Option<real>,
    latitude: real,
    longitude: real,
    status: Option<string>,
    urgency: Option<string>,
    createdAt: Option<int>,
    updatedAt: Option<int>)

  // ---------------------------------------------------------------------
  // Persistence callbacks

  /** @PrePersist onCreate: both instants become now; a missing status
      becomes OPEN and a missing urgency MEDIUM, present ones are kept. */
  function Created(r: RequestRow, now: int): (c: RequestRow)
    ensures c.createdAt == c.updatedAt == Some(now)
    ensures c.status == (if r.status.None? then Some(Open) else r.status)
    ensures c.urgency == (if r.urgency.None? then Some(Medium) else r.urgency)
    ensures c.(createdAt := r.createdAt, updatedAt := r.updatedAt, status := r.status, urgency := r.urgency) == r
  {
    r.(createdAt := Some(now), updatedAt := Some(now),
       status := if r.status.None? then Some(Open) else r.status,
       urgency := if r.urgency.None? then Some(Medium) else r.urgency)
  }

  /** @PreUpdate onUpdate: only updatedAt changes. */
  function Touched(r: RequestRow, now: int): (u: RequestRow)
    ensures u.updatedAt == Some(now)
    ensures u.(updatedAt := r.updatedAt) == r
  {
    r.(updatedAt := Some(now))
  }

  /** The Request entity as the application holds it before and while it
      is persisted. images is the list the create mapper attaches. */
  class Request {
    var id: string
    var userId: Option<string>
    var title: Option<string>
    var description: Option<string>
    var category: Option<string>
    var reward: Option<real>
    var latitude: real
    var longitude: real
    var status: Option<string>
    var urgency: Option<string>
    var createdAt: Option<int>
    var updatedAt: Option<int>
    var images: Option<seq<RequestImage>>

    /** The persistent columns; the image list is not one of them. */
    function Row(): RequestRow
      reads this
    {
      RequestRow(id, userId, title, description, category, reward, latitude, longitude,
                 status, urgency, createdAt, updatedAt)
    }

    /** new Request(): a fresh UUID is the id from the start; every other
        field is null or zero. */
    constructor (uuid: string)
      ensures Row() == RequestRow(uuid, None, None, None, None, None, 0.0, 0.0, None, None, None, None)
      ensures images.None?
    {
      id := uuid;
      userId, title, description, category, reward := None, None, None, None, None;
      latitude, longitude := 0.0, 0.0;
      status, urgency, createdAt, updatedAt := None, None, None, None;
      images := None;
    }

    method OnCreate(now: int)
      modifies this
      ensures Row() == Created(old(Row()), now)
      ensures images == old(images)
    {
      createdAt := Some(now);
      updatedAt := Some(now);
      if status.None? {
        status := Some(Open);
      }
      if urgency.None? {
        urgency := Some(Medium);
      }
    }

    method OnUpdate(now: int)
      modifies this
      ensures Row() == Touched(old(Row()), now)
      ensures images == old(images)
    {
      updatedAt := Some(now);
    }
  }

  // ---------------------------------------------------------------------
  // RequestCreateMapper

  datatype CreateImageDto = CreateImageDto(url: Option<string>, primaryImage: bool, s3Key: Option<string>)

  datatype CreateRequestDto = CreateRequestDto(
    title: Option<string>,
    description: Option<string>,
    category: Option<string>,
    reward: Option<real>,
    latitude: real,
    longitude: real,
    urgency: Option<string>,
    images: Option<seq<CreateImageDto>>)

  /** toImageEntity: an unsaved image copying the form's url, primary flag
      and key, owned by the request. */
  function ToImageEntity(dto: CreateImageDto, requestId: string): (img: RequestImage)
    ensures img.id.None? && img.requestId == requestId
    ensures img.url == dto.url && img.primaryImage == dto.primaryImage && img.s3Key == dto.s3Key
  {
    RequestImage(None, dto.url, dto.primaryImage, dto.s3Key, requestId)
  }

  /** The images toEntity attaches: none unless the form lists at least
      one; otherwise one per form image, in form order. */
  function MappedImages(dto: CreateRequestDto, requestId: string): (images: Option<seq<RequestImage>>)
    ensures images.Some? <==> dto.images.Some? && dto.images.value != []
    ensures images.Some? ==>
      && |images.value| == |dto.images.value|
      && forall k | 0 <= k < |images.value| :: images.value[k] == ToImageEntity(dto.images.value[k], requestId)
  {
    if dto.images.None? || dto.images.value == [] then None
    else
      var forms := dto.images.value;
      Some(seq(|forms|, k requires 0 <= k < |forms| => ToImageEntity(forms[k], requestId)))
  }

  /** The row toEntity produces: owned by userId, copying the form, OPEN
      whatever the form says, created and updated at the same instant. */
  function MappedRow(userId: string, dto: CreateRequestDto, uuid: string, now: int): (r: RequestRow)
    ensures r.id == uuid && r.userId == Some(userId)
    ensures r.status == Some(Open)
    ensures r.createdAt == r.updatedAt == Some(now)
    ensures r.title == dto.title && r.description == dto.description && r.category == dto.category
      && r.reward == dto.reward && r.latitude == dto.latitude && r.longitude == dto.longitude
      && r.urgency == dto.urgency
  {
    RequestRow(uuid, Some(userId), dto.title, dto.description, dto.category, dto.reward,
               dto.latitude, dto.longitude, Some(Open), dto.urgency, Some(now), Some(now))
  }

  /** toEntity: the constructor's UUID is replaced by a second one. */
  method ToEntity(userId: string, dto: CreateRequestDto, constructorUuid: string, uuid: string, now: int)
    returns (request: Request)
    ensures fresh(request)
    ensures request.Row() == MappedRow(userId, dto, uuid, now)
    ensures request.images == MappedImages(dto, uuid)
  {
    var images := MappedImages(dto, uuid);
    request := new Request(constructorUuid);
    request.id, request.userId := uuid, Some(userId);
    request.title, request.description, request.category := dto.title, dto.description, dto.category;
    request.reward, request.latitude, request.longitude := dto.reward, dto.latitude, dto.longitude;
    request.urgency, request.status := dto.urgency, Some(Open);
    request.createdAt, request.updatedAt := Some(now), Some(now);
    assert request.Row() == RequestRow(uuid, Some(userId), dto.title, dto.description, dto.category, dto.reward,
                                       dto.latitude, dto.longitude, Some(Open), dto.urgency, Some(now), Some(now));
    if dto.images.Some? && dto.images.value != [] {
      request.images := images;
    }
  }

  /** Persisting a mapped request keeps it OPEN, keeps the form's urgency
      or defaults it to MEDIUM, and leaves both instants equal. */
  lemma MappedRequestPersisted(userId: string, dto: CreateRequestDto, uuid: string, mapped: int, persisted: int)
    ensures var c := Created(MappedRow(userId, dto, uuid, mapped), persisted);
      && c.status == Some(Open)
      && c.urgency == (if dto.urgency.Some? then dto.urgency else Some(Medium))
      && c.createdAt == c.updatedAt
      && c.id == uuid && c.userId == Some(userId)
  {
  }

  // ---------------------------------------------------------------------
  // updateRequest: the field patch

  datatype UpdateImageDto = UpdateImageDto(id: Option<string>, url: Option<string>, primaryImage: bool, s3Key: Option<string>)

  datatype UpdateRequestDto = UpdateRequestDto(
    requestId: Option<string>,
    title: Option<string>,
    description: Option<string>,
    category: Option<string>,
    reward: Option<real>,
    urgency: Option<string>,
    status: Option<string>,
    removedImages: Option<seq<UpdateImageDto>>,
    newImages: Option<seq<UpdateImageDto>>)

  /** Optional.ofNullable(v).ifPresent(setter): a null value keeps the field. */
  function Keep<T>(current: Option<T>, given: Option<T>): (r: Option<T>)
    ensures given.Some? ==> r == given
    ensures given.None? ==> r == current
  {
    if given.Some? then given else current
  }

  /** The six patched fields: each is overwritten exactly when the update
      carries a value for it; no other column is touched. */
  function Patched(r: RequestRow, d: UpdateRequestDto): (p: RequestRow)
    ensures p.title != r.title ==> d.title.Some?
    ensures p.description != r.description ==> d.description.Some?
    ensures p.category != r.category ==> d.category.Some?
    ensures p.reward != r.reward ==> d.reward.Some?
    ensures p.status != r.status ==> d.status.Some?
    ensures p.urgency != r.urgency ==> d.urgency.Some?
    ensures d.title.Some? ==> p.title == d.title
    ensures d.description.Some? ==> p.description == d.description
    ensures d.category.Some? ==> p.category == d.category
    ensures d.reward.Some? ==> p.reward == d.reward
    ensures d.status.Some? ==> p.status == d.status
    ensures d.urgency.Some? ==> p.urgency == d.urgency
    ensures p.id == r.id && p.userId == r.userId && p.latitude == r.latitude
      && p.longitude == r.longitude && p.createdAt == r.createdAt && p.updatedAt == r.updatedAt
  {
    r.(title := Keep(r.title, d.title), description := Keep(r.description, d.description),
       category := Keep(r.category, d.category), reward := Keep(r.reward, d.reward),
       status := Keep(r.status, d.status), urgency := Keep(r.urgency, d.urgency))
  }

  /** The saved row: the patch, with updatedAt moved to now by onUpdate
      only when the patch changed a column (an unchanged entity is not
      dirty, so it is not updated). createdAt is not updatable. */
  function AfterUpdate(r: RequestRow, d: UpdateRequestDto, now: int): (s: RequestRow)
    ensures s.id == r.id && s.userId == r.userId && s.latitude == r.latitude
      && s.longitude == r.longitude && s.createdAt == r.createdAt
    ensures s.updatedAt == r.updatedAt || s.updatedAt == Some(now)
    ensures s.(updatedAt := r.updatedAt) == Patched(r, d)
  {
    var p := Patched(r, d);
    if p == r then r else Touched(p, now)
  }

  /** Applying the same update twice leaves the row as the first
      application left it, whatever the second instant. */
  lemma {:induction false} UpdateRepeatedChangesNothing(r: RequestRow, d: UpdateRequestDto, t1: int, t2: int)
    ensures AfterUpdate(AfterUpdate(r, d, t1), d, t2) == AfterUpdate(r, d, t1)
  {
    var once := AfterUpdate(r, d, t1);
    assert Patched(once, d) == once;
  }

  // ---------------------------------------------------------------------
  // updateRequest: the images

  /** The ids named by the removal list; a null list names none. */
  function RemovedIds(d: UpdateRequestDto): seq<Option<string>> {
    if d.removedImages.None? then []
    else seq(|d.removedImages.value|, k requires 0 <= k < |d.removedImages.value| => d.removedImages.value[k].id)
  }

  /** The image list to add; a null list adds none. */
  function NewImages(d: UpdateRequestDto): seq<UpdateImageDto> {
    if d.newImages.None? then [] else d.newImages.value
  }

  /** findAllById: a saved image is found when its id is listed; a null id
      in the list finds nothing. */
  predicate Listed(img: RequestImage, ids: seq<Option<string>>) {
    img.id.Some? && img.id in ids
  }

  /** The images findAllById returns, in table order. Nothing restricts
      them to the request being updated. */
  function ImagesWithIds(images: seq<RequestImage>, ids: seq<Option<string>>): (found: seq<RequestImage>)
    ensures forall img :: img in found <==> img in images && Listed(img, ids)
    ensures |found| <= |images|
  {
    if images == [] then []
    else
      var init, last := images[..|images| - 1], images[|images| - 1];
      assert images == init + [last];
      ImagesWithIds(init, ids) + (if Listed(last, ids) then [last] else [])
  }

  /** The table after deleteAll of the found images. */
  function ImagesWithoutIds(images: seq<RequestImage>, ids: seq<Option<string>>): (kept: seq<RequestImage>)
    ensures forall img :: img in kept <==> img in images && !Listed(img, ids)
    ensures |kept| + |ImagesWithIds(images, ids)| == |images|
  {
    if images == [] then []
    else
      var init, last := images[..|images| - 1], images[|images| - 1];
      assert images == init + [last];
      ImagesWithoutIds(init, ids) + (if Listed(last, ids) then [] else [last])
  }

  /** The key passed to deleteObject for each image, in order. */
  function S3Keys(images: seq<RequestImage>): (keys: seq<Option<string>>)
    ensures |keys| == |images|
    ensures forall k | 0 <= k < |images| :: keys[k] == images[k].s3Key
  {
    seq(|images|, k requires 0 <= k < |images| => images[k].s3Key)
  }

  /** The image saved for a new-image form: the generated id, the form's
      url, flag and key, and the updated request as owner. */
  function SavedImage(dto: UpdateImageDto, generatedId: string, requestId: string): (img: RequestImage)
    ensures img.id == Some(generatedId) && img.requestId == requestId
    ensures img.url == dto.url && img.primaryImage == dto.primaryImage && img.s3Key == dto.s3Key
  {
    RequestImage(Some(generatedId), dto.url, dto.primaryImage, dto.s3Key, requestId)
  }

  function SavedImages(dtos: seq<UpdateImageDto>, generatedIds: seq<string>, requestId: string): (saved: seq<RequestImage>)
    requires |generatedIds| == |dtos|
    ensures |saved| == |dtos|
    ensures forall k | 0 <= k < |dtos| :: saved[k] == SavedImage(dtos[k], generatedIds[k], requestId)
  {
    seq(|dtos|, k requires 0 <= k < |dtos| => SavedImage(dtos[k], generatedIds[k], requestId))
  }

  // ---------------------------------------------------------------------
  // deleteRequest

  /** getAllImageByRequestId: the request's images, in table order. */
  function ImagesOf(images: seq<RequestImage>, requestId: string): (found: seq<RequestImage>)
    ensures forall img :: img in found <==> img in images && img.requestId == requestId
  {
    if images == [] then []
    else
      var init, last := images[..|images| - 1], images[|images| - 1];
      assert images == init + [last];
      ImagesOf(init, requestId) + (if last.requestId == requestId then [last] else [])
  }

  /** The image table after deleteByRequestId. */
  function ImagesNotOf(images: seq<RequestImage>, requestId: string): (kept: seq<RequestImage>)
    ensures forall img :: img in kept <==> img in images && img.requestId != requestId
    ensures |kept| + |ImagesOf(images, requestId)| == |images|
  {
    if images == [] then []
    else
      var init, last := images[..|images| - 1], images[|images| - 1];
      assert images == init + [last];
      ImagesNotOf(init, requestId) + (if last.requestId == requestId then [] else [last])
  }

  /** The requests table after deleteById; an absent id deletes nothing. */
  function RequestsWithout(rows: seq<RequestRow>, id: string): (kept: seq<RequestRow>)
    ensures forall r :: r in kept <==> r in rows && r.id != id
    ensures (forall r | r in rows :: r.id != id) ==> kept == rows
  {
    if rows == [] then []
    else
      var init, last := rows[..|rows| - 1], rows[|rows| - 1];
      assert rows == init + [last];
      RequestsWithout(init, id) + (if last.id == id then [] else [last])
  }

  /** No two requests share an id. */
  predicate DistinctIds(rows: seq<RequestRow>) {
    forall i, j | 0 <= i < j < |rows| :: rows[i].id != rows[j].id
  }

  lemma {:induction false} RequestsWithoutKeepsDistinct(rows: seq<RequestRow>, id: string)
    requires DistinctIds(rows)
    ensures DistinctIds(RequestsWithout(rows, id))
  {
    if rows != [] {
      var init, last := rows[..|rows| - 1], rows[|rows| - 1];
      RequestsWithoutKeepsDistinct(init, id);
      var rest := RequestsWithout(init, id);
      forall r | r in rest ensures r.id != last.id {
        assert r in init;
        var i :| 0 <= i < |init| && init[i] == r;
        assert rows[i] == r;
      }
    }
  }

  // ---------------------------------------------------------------------
  // Lookups

  /** findById over the requests table. */
  function RequestWithId(rows: seq<RequestRow>, id: string): (found: Option<RequestRow>)
    ensures found.Some? ==> found.value in rows && found.value.id == id
    ensures found.None? ==> forall r | r in rows :: r.id != id
  {
    if rows == [] then None
    else if rows[0].id == id then Some(rows[0])
    else RequestWithId(rows[1..], id)
  }

  /** save of a loaded row: the row with its id is replaced. */
  function ReplaceRow(rows: seq<RequestRow>, saved: RequestRow): (r: seq<RequestRow>)
    ensures |r| == |rows|
    ensures forall i | 0 <= i < |rows| :: r[i] == (if rows[i].id == saved.id then saved else rows[i])
  {
    seq(|rows|, i requires 0 <= i < |rows| => if rows[i].id == saved.id then saved else rows[i])
  }

  /** getRequestById: an empty response when the id is absent, never an
      error; otherwise the stored request. */
  datatype RequestResponse = EmptyResponse | Found(request: RequestRow)

  function GetRequestById(rows: seq<RequestRow>, id: string): (response: RequestResponse)
    ensures response.EmptyResponse? <==> forall r | r in rows :: r.id != id
    ensures response.Found? ==> response.request in rows && response.request.id == id
  {
    var found := RequestWithId(rows, id);
    if found.None? then EmptyResponse else Found(found.value)
  }

  // ---------------------------------------------------------------------
  // getAllRequestsByStatus

  datatype Page = Page(content: seq<RequestRow>, totalElements: nat)

  datatype PageResult = PageOk(page: Page) | IllegalArgument(message: string)

  const PageIndexMessage := "Page index must not be less than zero"
  const PageSizeMessage := "Page size must not be less than one"

  /** A null or empty status lists every request. */
  predicate StatusMatches(r: RequestRow, status: Option<string>) {
    status.None? || status.value == [] || r.status == status
  }

  function WithStatus(rows: seq<RequestRow>, status: Option<string>): (found: seq<RequestRow>)
    ensures forall r :: r in found <==> r in rows && StatusMatches(r, status)
    ensures forall r :: multiset(found)[r] == if StatusMatches(r, status) then multiset(rows)[r] else 0
    ensures |found| <= |rows|
  {
    if rows == [] then []
    else
      var init, last := rows[..|rows| - 1], rows[|rows| - 1];
      assert rows == init + [last];
      WithStatus(init, status) + (if StatusMatches(last, status) then [last] else [])
  }

  /** Sort.by("createdAt").descending() as an ascending key; the column is
      NOT NULL, so the fallback for a missing instant is never used on
      stored rows. */
  function NewestFirst(r: RequestRow): int {
    if r.createdAt.Some? then -r.createdAt.value else 0
  }

  /** The full ordered result the page is cut from. */
  function Listing(rows: seq<RequestRow>, status: Option<string>): seq<RequestRow> {
    SortBy(WithStatus(rows, status), NewestFirst)
  }

  /**
    PageRequest.of(page, size, ...) rejects a negative page, then a size
    below one; otherwise the page holds the listing's elements from
    page * size on, at most size of them, and reports the listing's size.
   */
  function GetAllRequestsByStatus(rows: seq<RequestRow>, status: Option<string>, page: int, size: int): (r: PageResult)
    ensures page < 0 ==> r == IllegalArgument(PageIndexMessage)
    ensures page >= 0 && size < 1 ==> r == IllegalArgument(PageSizeMessage)
    ensures page >= 0 && size >= 1 ==> r.PageOk?
    ensures r.PageOk? ==>
      && r.page.totalElements == |Listing(rows, status)|
      && IsPageOf(r.page.content, Listing(rows, status), page * size, size)
  {
    if page < 0 then IllegalArgument(PageIndexMessage)
    else if size < 1 then IllegalArgument(PageSizeMessage)
    else
      var all := Listing(rows, status);
      PageOk(Page(PageSlice(all, page * size, size), |all|))
  }

  /** content is the page that starts at offset: the elements of all from
      offset on, in order, as many as fit in size. */
  predicate IsPageOf(content: seq<RequestRow>, all: seq<RequestRow>, offset: int, size: int) {
    && 0 <= offset
    && |content| <= size
    && (forall k | 0 <= k < |content| :: offset + k < |all| && content[k] == all[offset + k])
    && |content| == (if offset >= |all| then 0
                     else if |all| - offset < size then |all| - offset
                     else size)
  }

  /** The elements of a page: at most size of them, from offset on. */
  function PageSlice(all: seq<RequestRow>, offset: nat, size: nat): (content: seq<RequestRow>)
    ensures IsPageOf(content, all, offset, size)
  {
    var from := if offset < |all| then offset else |all|;
    var to := if from + size < |all| then from + size else |all|;
    all[from..to]
  }

  /** Every listed request matches the status filter, each matching
      request is listed exactly as often as it is stored, and the
      listing runs from the newest to the oldest. */
  lemma ListingExact(rows: seq<RequestRow>, status: Option<string>)
    ensures var all := Listing(rows, status);
      && (forall r :: r in all <==> r in rows && StatusMatches(r, status))
      && (forall r :: multiset(all)[r] == if StatusMatches(r, status) then multiset(rows)[r] else 0)
      && forall i, j | 0 <= i < j < |all| && all[i].createdAt.Some? && all[j].createdAt.Some? ::
           all[j].createdAt.value <= all[i].createdAt.value
  {
    var found := WithStatus(rows, status);
    var all := Listing(rows, status);
    SortBySorted(found, NewestFirst);
    forall r ensures r in all <==> r in found {
      assert r in all <==> r in multiset(all);
    }
    forall i, j | 0 <= i < j < |all| && all[i].createdAt.Some? && all[j].createdAt.Some?
      ensures all[j].createdAt.value <= all[i].createdAt.value
    {
      assert NewestFirst(all[i]) <= NewestFirst(all[j]);
    }
  }

  // ---------------------------------------------------------------------
  // The two tables

  /** The outcome of updateRequest: the saved row and the keys deleteObject
      was called with, or the exception's message. */
  datatype UpdateResult = Saved(request: RequestRow, deletedKeys: seq<Option<string>>) | UpdateFailed(message: string)

  const NullIdMessage := "The given id must not be null"
  const NotFoundPrefix := "Request not found with id: "

  class RequestStore {
    var requests: seq<RequestRow>
    var images: seq<RequestImage>

    /** The primary key is unique; createdAt and updatedAt are NOT NULL. */
    predicate Valid()
      reads this
    {
      DistinctIds(requests)
      && forall r | r in requests :: r.createdAt.Some? && r.updatedAt.Some?
    }

    constructor (initialRequests: seq<RequestRow>, initialImages: seq<RequestImage>)
      requires DistinctIds(initialRequests)
      requires forall r | r in initialRequests :: r.createdAt.Some? && r.updatedAt.Some?
      ensures Valid()
      ensures requests == initialRequests && images == initialImages
    {
      requests := initialRequests;
      images := initialImages;
    }

    function FindById(id: string): RequestResponse
      reads this
    {
      GetRequestById(requests, id)
    }

    function FindByStatus(status: Option<string>, page: int, size: int): PageResult
      reads this
    {
      GetAllRequestsByStatus(requests, status, page, size)
    }

    /**
      updateRequest: an unknown (or null) id fails before anything is
      touched. Otherwise the listed images are deleted from S3 and from the
      table, the new images are saved one by one with the generated ids,
      and the patched request is saved.
     */
    method UpdateRequest(d: UpdateRequestDto, generatedIds: seq<string>, now: int) returns (result: UpdateResult)
      requires Valid()
      requires |generatedIds| == |NewImages(d)|
      modifies this
      ensures Valid()
      ensures d.requestId.None? ==> result == UpdateFailed(NullIdMessage)
      ensures d.requestId.Some? && RequestWithId(old(requests), d.requestId.value).None? ==>
        result == UpdateFailed(NotFoundPrefix + d.requestId.value)
      ensures d.requestId.Some? && RequestWithId(old(requests), d.requestId.value).Some? ==> result.Saved?
      ensures result.UpdateFailed? ==> requests == old(requests) && images == old(images)
      ensures result.Saved? ==>
        && d.requestId.Some?
        && var id := d.requestId.value;
        && RequestWithId(old(requests), id).Some?
        && result.request == AfterUpdate(RequestWithId(old(requests), id).value, d, now)
        && result.deletedKeys == S3Keys(ImagesWithIds(old(images), RemovedIds(d)))
        && requests == ReplaceRow(old(requests), result.request)
        && images == ImagesWithoutIds(old(images), RemovedIds(d)) + SavedImages(NewImages(d), generatedIds, id)
    {
      if d.requestId.None? {
        return UpdateFailed(NullIdMessage);
      }
      var id := d.requestId.value;
      var existing := RequestWithId(requests, id);
      if existing.None? {
        return UpdateFailed(NotFoundPrefix + id);
      }
      SavedKeepsValid(requests, existing.value, d, now);
      var deletedKeys: seq<Option<string>> := [];
      if d.removedImages.Some? {
        var ids := RemovedIds(d);
        deletedKeys := S3Keys(ImagesWithIds(images, ids));
        images := ImagesWithoutIds(images, ids);
      } else {
        NoIdsListNothing(images);
      }
      SaveNewImages(NewImages(d), generatedIds, id);
      var saved := AfterUpdate(existing.value, d, now);
      requests := ReplaceRow(requests, saved);
      result := Saved(saved, deletedKeys);
    }

    /** The loop of updateRequest that saves each new image in turn. */
    method SaveNewImages(added: seq<UpdateImageDto>, generatedIds: seq<string>, requestId: string)
      requires |generatedIds| == |added|
      modifies this
      ensures images == old(images) + SavedImages(added, generatedIds, requestId)
      ensures requests == old(requests)
    {
      for k := 0 to |added|
        invariant images == old(images) + SavedImages(added[..k], generatedIds[..k], requestId)
        invariant requests == old(requests)
      {
        images := images + [SavedImage(added[k], generatedIds[k], requestId)];
        assert SavedImages(added[..k + 1], generatedIds[..k + 1], requestId)
          == SavedImages(added[..k], generatedIds[..k], requestId) + [SavedImage(added[k], generatedIds[k], requestId)];
      }
      assert added[..|added|] == added && generatedIds[..|added|] == generatedIds;
    }

    /**
      deleteRequest: the request's images are deleted from S3 and from the
      table (only when it has some), then the request itself; an unknown
      id deletes nothing and does not fail. Returns the keys deleteObject
      was called with.
     */
    method DeleteRequest(requestId: string) returns (deletedKeys: seq<Option<string>>)
      requires Valid()
      modifies this
      ensures Valid()
      ensures deletedKeys == S3Keys(ImagesOf(old(images), requestId))
      ensures images == ImagesNotOf(old(images), requestId)
      ensures requests == RequestsWithout(old(requests), requestId)
    {
      var toDelete := ImagesOf(images, requestId);
      deletedKeys := [];
      if toDelete != [] {
        deletedKeys := S3Keys(toDelete);
        images := ImagesNotOf(images, requestId);
      } else {
        NoImagesOfKeepsTable(images, requestId);
      }
      RequestsWithoutKeepsDistinct(requests, requestId);
      requests := RequestsWithout(requests, requestId);
    }
  }

  /** An empty id list finds no image and deletes none. */
  lemma {:induction false} NoIdsListNothing(images: seq<RequestImage>)
    ensures ImagesWithIds(images, []) == []
    ensures ImagesWithoutIds(images, []) == images
  {
    if images != [] {
      var init, last := images[..|images| - 1], images[|images| - 1];
      assert images == init + [last];
      NoIdsListNothing(init);
    }
  }

  lemma {:induction false} NoImagesOfKeepsTable(images: seq<RequestImage>, requestId: string)
    requires ImagesOf(images, requestId) == []
    ensures ImagesNotOf(images, requestId) == images
  {
    if images != [] {
      var init, last := images[..|images| - 1], images[|images| - 1];
      assert images == init + [last];
      assert last !in ImagesOf(images, requestId);
      NoImagesOfKeepsTable(init, requestId);
    }
  }

  /** Saving the updated row keeps the ids distinct and the instants set. */
  lemma SavedKeepsValid(rows: seq<RequestRow>, existing: RequestRow, d: UpdateRequestDto, now: int)
    requires DistinctIds(rows) && forall r | r in rows :: r.createdAt.Some? && r.updatedAt.Some?
    requires existing in rows
    ensures var after := ReplaceRow(rows, AfterUpdate(existing, d, now));
      DistinctIds(after) && forall r | r in after :: r.createdAt.Some? && r.updatedAt.Some?
  {
    var after := ReplaceRow(rows, AfterUpdate(existing, d, now));
    forall r | r in after ensures r.createdAt.Some? && r.updatedAt.Some? {
      var i :| 0 <= i < |after| && after[i] == r;
    }
  }
}
