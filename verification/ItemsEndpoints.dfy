/** The item handlers' consistency logic: weak ETags derived from the item version,
    the If-Match precondition, full and partial updates, the workflow actions, the
    tag relation operations, and the paging window of the list query. Every accepted
    mutation bumps the version by exactly one; a rejected one changes nothing. */
module ItemsEndpoints {
  import opened Common
  import opened Data

  // ----------------------------------------------------------- ETag and If-Match

  /** The weak validator W/"<version>". */
  function MakeEtag(version: nat): (r: string)
    ensures |r| == |NatToString(version)| + 4
    ensures r[..3] == "W/\"" && r[|r| - 1] == '"'
    ensures r[3..|r| - 1] == NatToString(version)
  {
    "W/\"" + NatToString(version) + "\""
  }

  /** Distinct versions give distinct ETags. */
  lemma EtagInjective(v: nat, w: nat)
    requires MakeEtag(v) == MakeEtag(w)
    ensures v == w
  {
    var ev, ew := MakeEtag(v), MakeEtag(w);
    assert ev[3..|ev| - 1] == NatToString(v);
    assert ew[3..|ew| - 1] == NatToString(w);
    NatToStringInjective(v, w);
  }

  /** CheckIfMatch: an absent or blank If-Match lets the update through; otherwise the
      trimmed header must equal the current ETag, ordinally. */
  function CheckIfMatch(ifMatch: Option<string>, version: nat): (r: bool)
    ensures ifMatch.None? ==> r
    ensures ifMatch.Some? && IsBlank(ifMatch.value) ==> r
    ensures r && ifMatch.Some? && !IsBlank(ifMatch.value) ==> Trim(ifMatch.value) == MakeEtag(version)
    ensures ifMatch.Some? && Trim(ifMatch.value) == MakeEtag(version) ==> r
  {
    IsNullOrWhiteSpace(ifMatch) || Trim(ifMatch.value) == MakeEtag(version)
  }

  lemma EtagNotBlank(v: nat)
    ensures !IsBlank(MakeEtag(v))
  {
    assert MakeEtag(v)[0] == 'W';
  }

  lemma EtagIsTrimmed(v: nat)
    ensures Trim(MakeEtag(v)) == MakeEtag(v)
  {
    var e := MakeEtag(v);
    assert e[0] == 'W';
    assert e[|e| - 1] == '"';
    TrimUnchanged(e);
  }

  /** The validator of the current version is accepted, with or without surrounding blanks. */
  lemma CurrentEtagAccepted(v: nat, before: string, after: string)
    requires IsBlank(before) && IsBlank(after)
    ensures CheckIfMatch(Some(MakeEtag(v)), v)
    ensures CheckIfMatch(Some(before + MakeEtag(v) + after), v)
  {
    EtagIsTrimmed(v);
    TrimPadded(before, MakeEtag(v), after);
  }

  /** A validator of any other version, a stale one included, is refused. */
  lemma StaleEtagRefused(v: nat, w: nat)
    requires w != v
    ensures !CheckIfMatch(Some(MakeEtag(w)), v)
  {
    EtagIsTrimmed(w);
    EtagNotBlank(w);
    if MakeEtag(w) == MakeEtag(v) {
      EtagInjective(w, v);
    }
  }

  // ------------------------------------------------------------------- updates

  /** The PUT body. */
  datatype ItemUpdateDto = ItemUpdateDto(
    name: string, description: Option<string>, price: real, categoryId: Option<Guid>,
    status: string, isActive: bool, isVerified: bool)

  /** The PATCH body: None leaves the field alone. */
  datatype ItemPatchDto = ItemPatchDto(
    name: Option<string>, description: Option<string>, price: Option<real>,
    categoryId: Option<Guid>, status: Option<string>, isActive: Option<bool>,
    isVerified: Option<bool>)

  /** The fields a PUT writes: all of them, names trimmed and the status normalised. */
  function ApplyPut(it: Item, dto: ItemUpdateDto): (r: Item)
    ensures r.name == Trim(dto.name) && r.description == TrimOpt(dto.description)
            && r.price == dto.price && r.categoryId == dto.categoryId
            && r.status == Normalize(dto.status)
            && r.isActive == dto.isActive && r.isVerified == dto.isVerified
  {
    it.(name := Trim(dto.name), description := TrimOpt(dto.description),
        price := dto.price, categoryId := dto.categoryId, status := Normalize(dto.status),
        isActive := dto.isActive, isVerified := dto.isVerified)
  }

  /** The fields a PATCH writes: only those it carries. A patch cannot clear the
      description or the category, since None means "leave alone". */
  function ApplyPatch(it: Item, dto: ItemPatchDto): (r: Item)
    ensures dto.name.None? ==> r.name == it.name
    ensures dto.description.None? ==> r.description == it.description
    ensures dto.price.None? ==> r.price == it.price
    ensures dto.categoryId.None? ==> r.categoryId == it.categoryId
    ensures dto.status.None? ==> r.status == it.status
    ensures dto.isActive.None? ==> r.isActive == it.isActive
    ensures dto.isVerified.None? ==> r.isVerified == it.isVerified
    ensures dto.name.Some? ==> r.name == Trim(dto.name.value)
    ensures dto.description.Some? ==> r.description == TrimOpt(dto.description)
    ensures dto.price.Some? ==> r.price == dto.price.value
    ensures dto.categoryId.Some? ==> r.categoryId == dto.categoryId
    ensures dto.status.Some? ==> r.status == Normalize(dto.status.value)
    ensures dto.isActive.Some? ==> r.isActive == dto.isActive.value
    ensures dto.isVerified.Some? ==> r.isVerified == dto.isVerified.value
    ensures r.tagIds == it.tagIds && r.isDeleted == it.isDeleted && r.isArchived == it.isArchived
            && r.version == it.version && r.createdAt == it.createdAt && r.updatedAt == it.updatedAt
  {
    Item(if dto.name.Some? then Trim(dto.name.value) else it.name,
         if dto.description.Some? then TrimOpt(dto.description) else it.description,
         if dto.price.Some? then dto.price.value else it.price,
         if dto.status.Some? then Normalize(dto.status.value) else it.status,
         if dto.isActive.Some? then dto.isActive.value else it.isActive,
         if dto.isVerified.Some? then dto.isVerified.value else it.isVerified,
         if dto.categoryId.Some? then dto.categoryId else it.categoryId,
         it.tagIds, it.isDeleted, it.isArchived, it.version, it.createdAt, it.updatedAt)
  }

  /** A patch that carries no field leaves the item as it was. */
  lemma EmptyPatchChangesNothing(it: Item)
    ensures ApplyPatch(it, ItemPatchDto(None, None, None, None, None, None, None)) == it
  {
  }

  /** A PUT touches neither the tags, the deletion and archive flags, nor the creation time. */
  lemma PutKeepsTheRest(it: Item, dto: ItemUpdateDto)
    ensures var r := ApplyPut(it, dto);
            r.tagIds == it.tagIds && r.isDeleted == it.isDeleted && r.isArchived == it.isArchived
            && r.createdAt == it.createdAt && r.version == it.version
  {
  }

  /** A patch carrying every field, with a description and a category, writes what
      the PUT of the same values writes. */
  lemma FullPatchIsPut(it: Item, dto: ItemUpdateDto)
    requires dto.description.Some? && dto.categoryId.Some?
    ensures ApplyPatch(it, ItemPatchDto(Some(dto.name), dto.description, Some(dto.price), dto.categoryId,
                                        Some(dto.status), Some(dto.isActive), Some(dto.isVerified)))
            == ApplyPut(it, dto)
  {
  }

  /** Sending the same patch twice leaves the fields as the first one did. */
  lemma PatchIdempotent(it: Item, dto: ItemPatchDto)
    ensures ApplyPatch(ApplyPatch(it, dto), dto) == ApplyPatch(it, dto)
  {
    var once := ApplyPatch(it, dto);
    var twice := ApplyPatch(once, dto);
    if dto.name.Some? { TrimIdempotent(dto.name.value); }
    if dto.description.Some? { TrimIdempotent(dto.description.value); }
    if dto.status.Some? { NormalizeIdempotent(dto.status.value); }
    assert twice.name == once.name && twice.description == once.description;
    assert twice.status == once.status && twice.price == once.price;
    assert twice.categoryId == once.categoryId;
    assert twice.isActive == once.isActive && twice.isVerified == once.isVerified;
  }

  /** Sending the same PUT twice leaves the fields as the first one did. */
  lemma PutIdempotent(it: Item, dto: ItemUpdateDto)
    ensures ApplyPut(ApplyPut(it, dto), dto) == ApplyPut(it, dto)
  {
  }

  /** UpdateFull: 404 for an unknown item, 412 when If-Match does not hold (nothing
      changes), otherwise every field is replaced and the version goes up by one; the
      returned ETag is the one of the new version. */
  method UpdateFull(db: AppDb, id: Guid, ifMatch: Option<string>, dto: ItemUpdateDto, now: int)
    returns (status: int, etag: Option<string>)
    modifies db`items
    ensures id !in old(db.items) ==> status == 404 && etag.None? && db.items == old(db.items)
    ensures id in old(db.items) && !CheckIfMatch(ifMatch, old(db.items)[id].version) ==>
              status == 412 && etag.None? && db.items == old(db.items)
    ensures id in old(db.items) && CheckIfMatch(ifMatch, old(db.items)[id].version) ==>
              var it := old(db.items)[id];
              status == 200 && etag == Some(MakeEtag(it.version + 1))
              && db.items == old(db.items)[id := ApplyPut(it, dto).(version := it.version + 1, updatedAt := now)]
  {
    if id !in db.items {
      status, etag := 404, None;
    } else if !CheckIfMatch(ifMatch, db.items[id].version) {
      status, etag := 412, None;
    } else {
      var item := db.items[id];
      db.items := db.items[id := ApplyPut(item, dto).(version := item.version + 1, updatedAt := now)];
      status, etag := 200, Some(MakeEtag(item.version + 1));
    }
  }

  /** UpdatePartial: like UpdateFull, but only the fields the patch carries change. */
  method UpdatePartial(db: AppDb, id: Guid, ifMatch: Option<string>, dto: ItemPatchDto, now: int)
    returns (status: int, etag: Option<string>)
    modifies db`items
    ensures id !in old(db.items) ==> status == 404 && etag.None? && db.items == old(db.items)
    ensures id in old(db.items) && !CheckIfMatch(ifMatch, old(db.items)[id].version) ==>
              status == 412 && etag.None? && db.items == old(db.items)
    ensures id in old(db.items) && CheckIfMatch(ifMatch, old(db.items)[id].version) ==>
              var it := old(db.items)[id];
              status == 200 && etag == Some(MakeEtag(it.version + 1))
              && db.items == old(db.items)[id := ApplyPatch(it, dto).(version := it.version + 1, updatedAt := now)]
  {
    if id !in db.items {
      return 404, None;
    }
    var item := db.items[id];
    if !CheckIfMatch(ifMatch, item.version) {
      return 412, None;
    }
    var updated := ApplyPatch(item, dto).(version := item.version + 1, updatedAt := now);
    db.items := db.items[id := updated];
    status, etag := 200, Some(MakeEtag(item.version + 1));
  }

  /** Two writers that both read version v: the first update is accepted and moves the
      item to v + 1; the second presents the now stale validator and gets 412. */
  method LostUpdatePrevented(db: AppDb, id: Guid, first: ItemPatchDto, second: ItemPatchDto, now: int)
    returns (s1: int, s2: int)
    requires id in db.items
    modifies db`items
    ensures s1 == 200 && s2 == 412
    ensures id in db.items && db.items[id].version == old(db.items[id].version) + 1
  {
    var seen := MakeEtag(db.items[id].version);
    CurrentEtagAccepted(db.items[id].version, "", "");
    var e;
    s1, e := UpdatePartial(db, id, Some(seen), first, now);
    StaleEtagRefused(db.items[id].version, old(db.items[id].version));
    s2, e := UpdatePartial(db, id, Some(seen), second, now);
  }

  // ---------------------------------------------------------- workflow actions

  /** What a workflow action does to an item. */
  datatype Effect = SetStatus(status: string) | SetActive(active: bool) | SetVerified(verified: bool)

  const ItemStatuses: set<string> :=
    {StatusDraft, StatusReview, StatusPublished, StatusUnpublished, StatusCancelled, StatusClosed}

  const WorkflowActions: set<string> :=
    {"submit", "approve", "reject", "publish", "unpublish", "activate", "deactivate",
     "verify", "unverify", "cancel", "close", "reopen"}

  /** The closed action table, keyed by the trimmed, lower-cased action. Exactly the
      twelve known actions have an effect, and every status an action sets is one of
      the item statuses. */
  function ActionEffect(action: string): (r: Option<Effect>)
    ensures r.Some? <==> Normalize(action) in WorkflowActions
    ensures r.Some? && r.value.SetStatus? ==> r.value.status in ItemStatuses
  {
    match Normalize(action)
    case "submit" => Some(SetStatus(StatusReview))
    case "approve" => Some(SetStatus(StatusPublished))
    case "reject" => Some(SetStatus(StatusDraft))
    case "publish" => Some(SetStatus(StatusPublished))
    case "unpublish" => Some(SetStatus(StatusUnpublished))
    case "activate" => Some(SetActive(true))
    case "deactivate" => Some(SetActive(false))
    case "verify" => Some(SetVerified(true))
    case "unverify" => Some(SetVerified(false))
    case "cancel" => Some(SetStatus(StatusCancelled))
    case "close" => Some(SetStatus(StatusClosed))
    case "reopen" => Some(SetStatus(StatusPublished))
    case _ => None
  }

  /** An action touches only the workflow fields, and only the one it names. */
  function ApplyEffect(it: Item, e: Effect): (r: Item)
    ensures r.(status := it.status, isActive := it.isActive, isVerified := it.isVerified) == it
    ensures e.SetStatus? ==> r.status == e.status && r.isActive == it.isActive && r.isVerified == it.isVerified
    ensures e.SetActive? ==> r.isActive == e.active && r.status == it.status && r.isVerified == it.isVerified
    ensures e.SetVerified? ==> r.isVerified == e.verified && r.status == it.status && r.isActive == it.isActive
  {
    match e
    case SetStatus(s) => it.(status := s)
    case SetActive(b) => it.(isActive := b)
    case SetVerified(b) => it.(isVerified := b)
  }

  /** WorkflowAction: 404 for an unknown item, 400 with no change for an unknown
      action, otherwise the action's effect plus one version step. */
  method WorkflowAction(db: AppDb, id: Guid, action: string, now: int) returns (status: int)
    modifies db`items
    ensures id !in old(db.items) ==> status == 404 && db.items == old(db.items)
    ensures id in old(db.items) && ActionEffect(action).None? ==> status == 400 && db.items == old(db.items)
    ensures id in old(db.items) && ActionEffect(action).Some? ==>
              var it := old(db.items)[id];
              status == 200
              && db.items == old(db.items)[id := ApplyEffect(it, ActionEffect(action).value)
                                                   .(version := it.version + 1, updatedAt := now)]
  {
    if id !in db.items {
      return 404;
    }
    var item := db.items[id];
    var effect := ActionEffect(action);
    if effect.None? {
      return 400;
    }
    match effect.value {
      case SetStatus(s) => item := item.(status := s);
      case SetActive(b) => item := item.(isActive := b);
      case SetVerified(b) => item := item.(isVerified := b);
    }
    item := item.(version := item.version + 1, updatedAt := now);
    db.items := db.items[id := item];
    status := 200;
  }

  /** The action is matched after trimming and lower-casing. */
  lemma ActionIsNormalised()
    ensures ActionEffect(" Submit ") == Some(SetStatus(StatusReview))
  {
    TrimPadded(" ", "Submit", " ");
    assert " " + "Submit" + " " == " Submit ";
    assert ToLowerInvariant("Submit") == "submit";
  }

  /** A blank action is outside the table and has no effect. */
  lemma BlankActionRefused(action: string)
    requires IsBlank(action)
    ensures ActionEffect(action).None?
  {
    TrimFacts(action);
  }

  // ------------------------------------------------------------------------ tags

  /** The loop shared by AttachTags and SyncTags: each distinct requested id that is
      not yet on the item and names an existing tag is appended once. */
  method AddExistingTags(current: seq<Guid>, requested: seq<Guid>, tags: set<Guid>)
    returns (result: seq<Guid>)
    ensures |result| >= |current| && result[..|current|] == current
    ensures Elems(result) == Elems(current) + (Elems(requested) * tags)
    ensures NoDup(current) ==> NoDup(result)
  {
    var existing := Elems(current);
    var seen: set<Guid> := {};
    result := current;
    for k := 0 to |requested|
      invariant |result| >= |current| && result[..|current|] == current
      invariant seen == Elems(requested[..k])
      invariant Elems(result) == Elems(current) + (seen * tags)
      invariant forall q :: |current| <= q < |result| ==> result[q] in seen && result[q] !in existing
      invariant NoDup(current) ==> NoDup(result)
    {
      var tid := requested[k];
      assert Elems(requested[..k + 1]) == seen + {tid} by {
        assert requested[..k + 1] == requested[..k] + [tid];
      }
      if tid !in seen {
        seen := seen + {tid};
        if tid !in existing && tid in tags {
          assert forall q :: 0 <= q < |result| ==> result[q] != tid by {
            forall q | 0 <= q < |result| ensures result[q] != tid {
              if q < |current| { assert result[q] == current[q]; }
            }
          }
          assert Elems(result + [tid]) == Elems(result) + {tid};
          result := result + [tid];
        }
      }
    }
  }

  /** AttachTags: appends each requested id that names an existing tag and is not on
      the item yet; the version goes up by one. */
  method AttachTags(db: AppDb, id: Guid, tagIds: seq<Guid>, now: int) returns (status: int)
    modifies db`items
    ensures id !in old(db.items) ==> status == 404 && db.items == old(db.items)
    ensures id in old(db.items) ==>
              var it := old(db.items)[id];
              status == 200 && id in db.items
              && db.items == old(db.items)[id := it.(tagIds := db.items[id].tagIds,
                                                     version := it.version + 1, updatedAt := now)]
              && |db.items[id].tagIds| >= |it.tagIds| && db.items[id].tagIds[..|it.tagIds|] == it.tagIds
              && Elems(db.items[id].tagIds) == Elems(it.tagIds) + (Elems(tagIds) * db.tags)
              && (NoDup(it.tagIds) ==> NoDup(db.items[id].tagIds))
  {
    if id !in db.items {
      return 404;
    }
    var item := db.items[id];
    var tagList := AddExistingTags(item.tagIds, tagIds, db.tags);
    item := item.(tagIds := tagList, version := item.version + 1, updatedAt := now);
    db.items := db.items[id := item];
    status := 200;
  }

  /** DetachTags: removes every listed id from the item; the version goes up by one. */
  method DetachTags(db: AppDb, id: Guid, tagIds: seq<Guid>, now: int) returns (status: int)
    modifies db`items
    ensures id !in old(db.items) ==> status == 404 && db.items == old(db.items)
    ensures id in old(db.items) ==>
              var it := old(db.items)[id];
              status == 200 && id in db.items
              && db.items == old(db.items)[id := it.(tagIds := db.items[id].tagIds,
                                                     version := it.version + 1, updatedAt := now)]
              && Elems(db.items[id].tagIds) == Elems(it.tagIds) - Elems(tagIds)
              && (NoDup(it.tagIds) ==> NoDup(db.items[id].tagIds))
  {
    if id !in db.items {
      return 404;
    }
    var item := db.items[id];
    var drop := Elems(tagIds);
    item := item.(tagIds := Filter(item.tagIds, t => t !in drop),
                  version := item.version + 1, updatedAt := now);
    db.items := db.items[id := item];
    status := 200;
  }

  /** SyncTags: keeps the item's tags that are desired and adds the desired ones that
      exist, so an item whose tags all exist ends with exactly the desired existing tags. */
  method SyncTags(db: AppDb, id: Guid, tagIds: seq<Guid>, now: int) returns (status: int)
    modifies db`items
    ensures id !in old(db.items) ==> status == 404 && db.items == old(db.items)
    ensures id in old(db.items) ==>
              var it := old(db.items)[id];
              status == 200 && id in db.items
              && db.items == old(db.items)[id := it.(tagIds := db.items[id].tagIds,
                                                     version := it.version + 1, updatedAt := now)]
              && Elems(db.items[id].tagIds) == (Elems(it.tagIds) * Elems(tagIds)) + (Elems(tagIds) * db.tags)
              && (Elems(it.tagIds) <= db.tags ==> Elems(db.items[id].tagIds) == Elems(tagIds) * db.tags)
              && (NoDup(it.tagIds) ==> NoDup(db.items[id].tagIds))
  {
    if id !in db.items {
      return 404;
    }
    var item := db.items[id];
    var desired := Elems(tagIds);
    var kept := Filter(item.tagIds, t => t in desired);
    var tagList := AddExistingTags(kept, tagIds, db.tags);
    item := item.(tagIds := tagList, version := item.version + 1, updatedAt := now);
    db.items := db.items[id := item];
    status := 200;
  }

  // ------------------------------------------------------------------- paging

  /** The query-string values ApplyQuery reads; a number is None when absent or not
      an int. */
  datatype PageQuery = PageQuery(
    cursor: Option<string>, size: Option<int>, page: Option<int>,
    offset: Option<int>, limit: Option<int>)

  /** Rows skipped and rows taken. */
  datatype Window = Window(skip: int, take: int)

  const DefaultTake: int := 20
  const MaxTake: int := 200

  function ClampTake(n: Option<int>): (r: int)
    ensures 1 <= r <= MaxTake
    ensures n.None? ==> r == DefaultTake
    ensures n.Some? && 1 <= n.value <= MaxTake ==> r == n.value
  {
    if n.Some? then Clamp(n.value, 1, MaxTake) else DefaultTake
  }

  /** C#'s unchecked 32-bit int arithmetic. */
  function WrapInt32(x: int): (r: int)
    ensures -0x8000_0000 <= r < 0x8000_0000
    ensures -0x8000_0000 <= x < 0x8000_0000 ==> r == x
  {
    (x + 0x8000_0000) % 0x1_0000_0000 - 0x8000_0000
  }

  /** The page offset as ApplyQuery computes it, in 32-bit int arithmetic. */
  function PageSkipAsWritten(page: int, pageSize: int): (r: int)
    ensures -0x8000_0000 <= r < 0x8000_0000
    ensures (r - (page - 1) * pageSize) % 0x1_0000_0000 == 0
    ensures -0x8000_0000 <= (page - 1) * pageSize < 0x8000_0000 ==> r == (page - 1) * pageSize
  {
    WrapInt32((page - 1) * pageSize)
  }

  /** Page 10 737 420 of 200 rows: the product passes int.MaxValue and the skip
      comes out negative, so the list query's window starts before the first row. */
  lemma PageSkipOverflows()
    ensures PageSkipAsWritten(10_737_420, 200) == -2_147_483_496 < 0
    ensures (10_737_420 - 1) * 200 == 2_147_483_800
    ensures PageWindow(PageQuery(None, Some(200), Some(10_737_420), None, None)).skip < 0
  {
  }

  /** The intended offset: the rows of the pages before this one. */
  function PageSkip(page: int, pageSize: int): (r: int)
    requires page >= 1 && pageSize >= 1
    ensures r >= 0
    ensures r == PageSkipAsWritten(page, pageSize) <==> (page - 1) * pageSize < 0x8000_0000
  {
    (page - 1) * pageSize
  }

  /** ApplyQuery pages by number: no cursor, and both `page` and `size` parse. */
  predicate PageMode(q: PageQuery): (r: bool)
    ensures r ==> q.page.Some? && q.size.Some?
    ensures !IsNullOrWhiteSpace(q.cursor) ==> !r
  {
    IsNullOrWhiteSpace(q.cursor) && q.page.Some? && q.size.Some?
  }

  /** The rows ApplyQuery's paging keeps: cursor mode takes `size`; page mode needs
      both `page` and `size` and skips `(page - 1) * size` in int arithmetic;
      offset/limit mode starts when either parses; the default is the first 20 rows. */
  function PageWindow(q: PageQuery): (r: Window)
    ensures 1 <= r.take <= MaxTake
    ensures !PageMode(q) ==> r.skip >= 0
    ensures PageMode(q) ==> -0x8000_0000 <= r.skip < 0x8000_0000
  {
    if !IsNullOrWhiteSpace(q.cursor) then
      Window(0, ClampTake(q.size))
    else if q.page.Some? && q.size.Some? then
      var pageSize := Clamp(q.size.value, 1, MaxTake);
      Window(PageSkipAsWritten(Max(1, q.page.value), pageSize), pageSize)
    else if q.offset.Some? || q.limit.Some? then
      Window(Max(0, if q.offset.Some? then q.offset.value else 0), ClampTake(q.limit))
    else
      Window(0, DefaultTake)
  }

  /** The page-mode product `(page - 1) * size` passes int.MaxValue. */
  predicate PageOverflows(q: PageQuery) {
    PageMode(q) && (Max(1, q.page.value) - 1) * Clamp(q.size.value, 1, MaxTake) >= 0x8000_0000
  }

  /** The window the paging means to keep: page mode skips the rows of the earlier
      pages exactly. */
  function PageWindowIntended(q: PageQuery): Window {
    var w := PageWindow(q);
    if PageMode(q) then w.(skip := PageSkip(Max(1, q.page.value), w.take)) else w
  }

  /** Every window takes between 1 and 200 rows; 20 when no size or limit is given.
      The intended window never skips a negative count, and the code's window is the
      intended one exactly when the page product fits in an int. */
  lemma PageWindowBounds(q: PageQuery)
    ensures 1 <= PageWindow(q).take <= MaxTake
    ensures q.size.None? && q.limit.None? ==> PageWindow(q).take == DefaultTake
    ensures PageWindowIntended(q).skip >= 0
    ensures PageWindow(q) == PageWindowIntended(q) <==> !PageOverflows(q)
    ensures !PageOverflows(q) ==> PageWindow(q).skip >= 0
  {
  }

  /** Consecutive pages of one size tile the list: page p + 1 starts where page p
      ends. The intended windows always do; the code's do while page p + 1 still
      fits in an int. */
  lemma ConsecutivePagesAdjacent(page: int, size: int)
    requires page >= 1
    ensures var w1 := PageWindowIntended(PageQuery(None, Some(size), Some(page), None, None));
            var w2 := PageWindowIntended(PageQuery(None, Some(size), Some(page + 1), None, None));
            w2.skip == w1.skip + w1.take
    ensures page * Clamp(size, 1, MaxTake) < 0x8000_0000 ==>
            var w1 := PageWindow(PageQuery(None, Some(size), Some(page), None, None));
            var w2 := PageWindow(PageQuery(None, Some(size), Some(page + 1), None, None));
            w2.skip == w1.skip + w1.take
  {
    var s := Clamp(size, 1, MaxTake);
    assert page * s == (page - 1) * s + s;
  }
}
