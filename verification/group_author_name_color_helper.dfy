/**
 `GroupAuthorNameColorHelper`: maps each member of a group to a name colour. The
 class comment asks for colours that never change while the chat is open; the
 code keeps that only while no new member is observed (`DepartureKeepsColors`),
 and a newcomer who sorts earlier moves everyone after them
 (`Scenarios.NewcomerShiftsColors`). The helper's two mutable caches become an
 immutable `Caches` value passed in and returned by each lookup:
 `fullMemberCache` serves the `getColorMap(groupId)` entry point and
 `fullMemberServiceIdsCache` the V2 branch of `getColorMap(groupRecord)`.

 The membership store's answer (full members including self), the current user
 and the palette are inputs of each lookup.
 */
module GroupAuthorNameColorHelper {
  import opened IdentityOrder
  import opened SortedIdentities
  import opened ColorAssigner
  import opened MembershipHistory

  /** The helper's state. */
  datatype Caches = Caches(fullMemberCache: History, fullMemberServiceIdsCache: History)

  /** A newly constructed helper: both caches empty. */
  const Fresh: Caches := Caches(map[], map[])

  /** The parts of a group record the helper reads. */
  datatype GroupRecord = GroupRecord(id: GroupId, isV2Group: bool, decryptedMemberServiceIds: seq<Identity>)

  /** The helper's state after a lookup, and the colour map the lookup returns. */
  datatype Lookup<C> = Lookup(caches: Caches, colors: Result<map<Identity, C>>)

  /**
   `getColorMap(groupId)`: `dbMembers` is the membership store's list of full
   members including self; `self` is the current user.
   */
  function ColorMapForGroup<C>(caches: Caches, groupId: GroupId, dbMembers: seq<Identity>, self: Identity, palette: seq<C>): (o: Lookup<C>)
    ensures Absorbed(caches.fullMemberCache, o.caches.fullMemberCache, groupId, Members(dbMembers))
    ensures o.caches.fullMemberServiceIdsCache == caches.fullMemberServiceIdsCache
    ensures o.colors == AssignColors(Entry(caches.fullMemberCache, groupId) + Members(dbMembers), self, palette)
    ensures o.colors.Ok? ==> o.colors.value.Keys == o.caches.fullMemberCache[groupId] - {self}
  {
    var h := Absorb(caches.fullMemberCache, groupId, Members(dbMembers));
    Lookup(caches.(fullMemberCache := h), AssignColors(h[groupId], self, palette))
  }

  /**
   `getColorMap(groupRecord)`: a V2 record supplies its decrypted member service
   ids; any other record is looked up by its id, for which `dbMembers` is the
   membership store's answer.
   */
  function ColorMapForRecord<C>(caches: Caches, record: GroupRecord, dbMembers: seq<Identity>, self: Identity, palette: seq<C>): (o: Lookup<C>)
    ensures !record.isV2Group ==> o == ColorMapForGroup(caches, record.id, dbMembers, self, palette)
    ensures record.isV2Group ==>
      Absorbed(caches.fullMemberServiceIdsCache, o.caches.fullMemberServiceIdsCache, record.id, Members(record.decryptedMemberServiceIds))
    ensures record.isV2Group ==> o.caches.fullMemberCache == caches.fullMemberCache
    ensures record.isV2Group ==>
      o.colors == AssignColors(Entry(caches.fullMemberServiceIdsCache, record.id) + Members(record.decryptedMemberServiceIds), self, palette)
    ensures record.isV2Group && o.colors.Ok? ==>
      o.colors.value.Keys == o.caches.fullMemberServiceIdsCache[record.id] - {self}
  {
    if !record.isV2Group then
      ColorMapForGroup(caches, record.id, dbMembers, self, palette)
    else
      var h := Absorb(caches.fullMemberServiceIdsCache, record.id, Members(record.decryptedMemberServiceIds));
      Lookup(caches.(fullMemberServiceIdsCache := h), AssignColors(h[record.id], self, palette))
  }

  /** The `getColorMap(groupId)` steps as the source takes them, with the sort-and-loop colouring. */
  method GetColorMapForGroup<C>(caches: Caches, groupId: GroupId, dbMembers: seq<Identity>, self: Identity, palette: seq<C>)
    returns (o: Lookup<C>)
    ensures o == ColorMapForGroup(caches, groupId, dbMembers, self, palette)
  {
    var cachedMembers := Entry(caches.fullMemberCache, groupId);
    var allMembers := cachedMembers + Members(dbMembers);
    var cache := caches.fullMemberCache[groupId := allMembers];
    var colors := BuildColorMap(allMembers, self, palette);
    o := Lookup(caches.(fullMemberCache := cache), colors);
  }

  /** The `getColorMap(groupRecord)` steps as the source takes them. */
  method GetColorMapForRecord<C>(caches: Caches, record: GroupRecord, dbMembers: seq<Identity>, self: Identity, palette: seq<C>)
    returns (o: Lookup<C>)
    ensures o == ColorMapForRecord(caches, record, dbMembers, self, palette)
  {
    if !record.isV2Group {
      o := GetColorMapForGroup(caches, record.id, dbMembers, self, palette);
      return;
    }
    var cachedServiceIds := Entry(caches.fullMemberServiceIdsCache, record.id);
    var allIds := cachedServiceIds + Members(record.decryptedMemberServiceIds);
    var cache := caches.fullMemberServiceIdsCache[record.id := allIds];
    var colors := BuildColorMap(allIds, self, palette);
    o := Lookup(caches.(fullMemberServiceIdsCache := cache), colors);
  }

  /**
   Departure stability on the GroupId path: a later lookup whose store answer
   holds no one new (someone left) leaves the caches as they were and returns
   the same map, so the member who left keeps their colour. A newly observed
   member can still move others: see `Scenarios.NewcomerShiftsColors`.
   */
  lemma DepartureKeepsColors<C>(caches: Caches, groupId: GroupId, before: seq<Identity>, after: seq<Identity>, self: Identity, palette: seq<C>)
    requires Members(after) <= Entry(caches.fullMemberCache, groupId) + Members(before)
    ensures var first := ColorMapForGroup(caches, groupId, before, self, palette);
            ColorMapForGroup(first.caches, groupId, after, self, palette) == first
  {
    var first := ColorMapForGroup(caches, groupId, before, self, palette);
    AbsorbKnownMembers(first.caches.fullMemberCache, groupId, Members(after));
    assert first.caches.(fullMemberCache := first.caches.fullMemberCache) == first.caches;
  }

  /** Departure stability on the V2 path, for two records of the same group. */
  lemma DepartureKeepsColorsV2<C>(caches: Caches, before: GroupRecord, after: GroupRecord, self: Identity, palette: seq<C>, dbMembers: seq<Identity>)
    requires before.isV2Group && after.isV2Group && before.id == after.id
    requires Members(after.decryptedMemberServiceIds)
          <= Entry(caches.fullMemberServiceIdsCache, before.id) + Members(before.decryptedMemberServiceIds)
    ensures var first := ColorMapForRecord(caches, before, dbMembers, self, palette);
            ColorMapForRecord(first.caches, after, dbMembers, self, palette) == first
  {
    var first := ColorMapForRecord(caches, before, dbMembers, self, palette);
    AbsorbKnownMembers(first.caches.fullMemberServiceIdsCache, before.id, Members(after.decryptedMemberServiceIds));
    assert first.caches.(fullMemberServiceIdsCache := first.caches.fullMemberServiceIdsCache) == first.caches;
  }

  /**
   The order in which the store lists the members, and any repeats, do not
   matter: two answers naming the same members give the same caches and map.
   That the sorted list itself is independent of how the set was built is
   `SortedIdentities.EnumerationUnique`.
   */
  lemma ListingOrderIrrelevant<C>(caches: Caches, groupId: GroupId, a: seq<Identity>, b: seq<Identity>, self: Identity, palette: seq<C>)
    requires forall x :: x in a <==> x in b
    ensures ColorMapForGroup(caches, groupId, a, self, palette) == ColorMapForGroup(caches, groupId, b, self, palette)
  {
    assert Members(a) == Members(b);
  }

  /** The order of two lookups does not matter: both orders end in the same caches and the same map. */
  lemma LookupOrderIrrelevant<C>(caches: Caches, groupId: GroupId, a: seq<Identity>, b: seq<Identity>, self: Identity, palette: seq<C>)
    ensures var ab := ColorMapForGroup(ColorMapForGroup(caches, groupId, a, self, palette).caches, groupId, b, self, palette);
            var ba := ColorMapForGroup(ColorMapForGroup(caches, groupId, b, self, palette).caches, groupId, a, self, palette);
            ab == ba
  {
    AbsorbTwice(caches.fullMemberCache, groupId, Members(a), Members(b));
    AbsorbTwice(caches.fullMemberCache, groupId, Members(b), Members(a));
    assert Members(a) + Members(b) == Members(b) + Members(a);
  }

  /** One call on the helper, with the membership store's answer where the call needs one. */
  datatype Call = ByGroup(groupId: GroupId, dbMembers: seq<Identity>) | ByRecord(record: GroupRecord, dbMembers: seq<Identity>)

  function Perform<C>(caches: Caches, call: Call, self: Identity, palette: seq<C>): Lookup<C>
  {
    match call
    case ByGroup(g, db) => ColorMapForGroup(caches, g, db, self, palette)
    case ByRecord(r, db) => ColorMapForRecord(caches, r, db, self, palette)
  }

  /** The helper's state after a sequence of calls while the chat stays open. */
  function Replay<C>(caches: Caches, calls: seq<Call>, self: Identity, palette: seq<C>): Caches
    decreases |calls|
  {
    if |calls| == 0 then caches
    else Replay(Perform(caches, calls[0], self, palette).caches, calls[1..], self, palette)
  }

  /** `after` has every member `before` has, for every group, in both caches. */
  ghost predicate Grown(before: Caches, after: Caches)
  {
    && (forall g :: Entry(before.fullMemberCache, g) <= Entry(after.fullMemberCache, g))
    && (forall g :: Entry(before.fullMemberServiceIdsCache, g) <= Entry(after.fullMemberServiceIdsCache, g))
  }

  lemma PerformNeverShrinks<C>(caches: Caches, call: Call, self: Identity, palette: seq<C>)
    ensures Grown(caches, Perform(caches, call, self, palette).caches)
  {
  }

  /** Over a whole session of calls, no cache entry ever loses a member. */
  lemma {:induction false} ReplayNeverShrinks<C>(caches: Caches, calls: seq<Call>, self: Identity, palette: seq<C>)
    ensures Grown(caches, Replay(caches, calls, self, palette))
    decreases |calls|
  {
    if |calls| > 0 {
      var next := Perform(caches, calls[0], self, palette).caches;
      PerformNeverShrinks(caches, calls[0], self, palette);
      ReplayNeverShrinks(next, calls[1..], self, palette);
    }
  }
}
