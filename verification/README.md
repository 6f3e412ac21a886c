# Group author name colours

A Dafny model of `GroupAuthorNameColorHelper` from Signal for Android. The helper
gives every member of a group chat a name colour. Its class comment (lines 12-15)
asks that a member's colour never change while the chat is open, even after a
member leaves.

The helper works in two steps:

- **Membership history.** It keeps two caches, each a map from group id to the set
  of every member seen for that group. `fullMemberServiceIdsCache` serves the V2
  branch of `getColorMap(groupRecord)`. `fullMemberCache` serves
  `getColorMap(groupId)`. Each lookup unions the members it observes into its
  group's entry and stores the union back under that key. Entries only ever grow.
- **Colour assignment.** It takes the accumulated set, drops the current user
  ("self"), and sorts the rest ascending by the identity string. The member at
  position `i` gets `palette[i % |palette|]`.

The Dafny project has six modules:

- `IdentityOrder` (`identity_order.dfy`): a member identity is its canonical
  string. `Less` is Kotlin's `String.compareTo` order. It is proved
  equal to the prefix-or-first-difference definition of lexicographic order, and
  proved to be a strict total order.
- `SortedIdentities` (`sorted_identities.dfy`): sorts a set of identities. It
  defines `Rank`, the number of members that sort before an identity. It proves
  that a set has exactly one ascending list and that position equals rank.
- `ColorAssigner` (`color_assigner.dfy`): `AssignColors` defines the colour map by
  rank modulo the palette length. `BuildColorMap` is the source's filter, sort and
  indexed loop, proved to return the same map.
- `MembershipHistory` (`membership_history.dfy`): a cache is a `map<GroupId,
  set<Identity>>`. `Absorb` is one lookup's read-union-write.
- `GroupAuthorNameColorHelper` (`group_author_name_color_helper.dfy`): the two
  entry points, written as pure functions over an immutable `Caches` value. Next
  to them are methods that take the source's steps in the source's order. The
  lemmas cover several calls in a row: departure stability, order independence,
  and a whole session that never shrinks a cache.
- `Scenarios` (`scenarios.dfy`): concrete lookups. Four members get Red, Green,
  Blue, Red and keep those colours after one leaves. A newcomer who sorts first
  moves an existing member to another colour.

The source's mutable caches are modelled as a value. Each lookup takes `Caches`
and returns the new `Caches` together with its result. The membership store's
answer, the current user and the palette are inputs of the lookup.

Two facts about the code are easy to miss:

- The class comment (lines 12-15) promises that colours never change while the
  chat is open. The code keeps that promise only while no new member is
  observed: a lookup that sees nobody new, for example after someone left,
  returns the same map (`DepartureKeepsColors`, `DepartureKeepsColorsV2`). Line
  19 explains why past members are kept for this. A newly observed member who
  sorts earlier shifts every later position, so colours do change while the chat
  is open (`Scenarios.NewcomerShiftsColors`).
- An empty palette faults at `i % allColors.size` (lines 45 and 72) only when
  some member other than self needs a colour. The fault comes after the cache
  write at line 34 or 62. The model returns `Err(EmptyPalette)` in exactly that
  case, together with the grown caches.

## Model

| member | source | states |
|---|---|---|
| IdentityOrder.LessIsLexicographic | app/src/main/java/org/thoughtcrime/securesms/conversation/colors/GroupAuthorNameColorHelper.kt:39 | `Less`, the sort key order of `sortedBy { it.toString() }` and of `requireStringId()` at line 66, holds exactly when the first identity is a proper prefix of the second or has the smaller character at the first position where they differ. This is Kotlin's `String.compareTo(b) < 0`. |
| IdentityOrder.LessIrreflexive | app/src/main/java/org/thoughtcrime/securesms/conversation/colors/GroupAuthorNameColorHelper.kt:39 | No identity sorts before itself in the `toString()` order. |
| IdentityOrder.LessAsymmetric | app/src/main/java/org/thoughtcrime/securesms/conversation/colors/GroupAuthorNameColorHelper.kt:39 | If a sorts before b, then b does not sort before a. |
| IdentityOrder.LessTransitive | app/src/main/java/org/thoughtcrime/securesms/conversation/colors/GroupAuthorNameColorHelper.kt:39 | The sort order is transitive. |
| IdentityOrder.LessTotal | app/src/main/java/org/thoughtcrime/securesms/conversation/colors/GroupAuthorNameColorHelper.kt:66 | Two distinct identity strings are always ordered one way or the other, so `sortedBy` has no ties to break. |
| SortedIdentities.MembersBound | app/src/main/java/org/thoughtcrime/securesms/conversation/colors/GroupAuthorNameColorHelper.kt:32 | `toSet()` on a list (the decrypted service ids here, the store's list at line 58) gives at most as many members as the list has entries, because repeats collapse. |
| SortedIdentities.DistinctCardinality | app/src/main/java/org/thoughtcrime/securesms/conversation/colors/GroupAuthorNameColorHelper.kt:58 | A list without repeats has exactly as many members after `toSet()` as it has entries. |
| SortedIdentities.Least | app/src/main/java/org/thoughtcrime/securesms/conversation/colors/GroupAuthorNameColorHelper.kt:39 | Returns a member of a non-empty set that sorts before every other member. |
| SortedIdentities.SortIdentities | app/src/main/java/org/thoughtcrime/securesms/conversation/colors/GroupAuthorNameColorHelper.kt:37-39 | The result is strictly ascending, holds exactly the members of the input set, and has one entry per member. |
| SortedIdentities.EnumerationUnique | app/src/main/java/org/thoughtcrime/securesms/conversation/colors/GroupAuthorNameColorHelper.kt:64-66 | Any two ascending lists of the same set are equal, so the sorted list does not depend on the order in which members were observed or supplied. |
| SortedIdentities.RankOfEnumerated | app/src/main/java/org/thoughtcrime/securesms/conversation/colors/GroupAuthorNameColorHelper.kt:44-45 | The member at index `i` of the sorted list has exactly `i` members sorting before it. |
| SortedIdentities.RankStrictlyIncreasing | app/src/main/java/org/thoughtcrime/securesms/conversation/colors/GroupAuthorNameColorHelper.kt:44 | A member that sorts before another has a strictly smaller position. |
| SortedIdentities.RankBound | app/src/main/java/org/thoughtcrime/securesms/conversation/colors/GroupAuthorNameColorHelper.kt:44 | A member's position lies within the indices of the sorted list. |
| ColorAssigner.AssignColors | app/src/main/java/org/thoughtcrime/securesms/conversation/colors/GroupAuthorNameColorHelper.kt:36-48 | The map's keys are exactly the accumulated members minus self, so self never gets a colour. The result is an error exactly when the palette is empty and some member needs a colour. |
| ColorAssigner.BuildColorMap | app/src/main/java/org/thoughtcrime/securesms/conversation/colors/GroupAuthorNameColorHelper.kt:37-48 | Filtering out self, sorting, and then colouring in an indexed loop gives the same map (or the same error) as colouring by rank. |
| ColorAssigner.LoopResultMatches | app/src/main/java/org/thoughtcrime/securesms/conversation/colors/GroupAuthorNameColorHelper.kt:43-46 | If the loop has coloured every sorted index `j` with `palette[j % size]`, the map equals the rank colouring. |
| ColorAssigner.SortedPositionColor | app/src/main/java/org/thoughtcrime/securesms/conversation/colors/GroupAuthorNameColorHelper.kt:44-45 | For any ascending list of the non-self members, the member at 0-based index `i` gets `palette[i % size]`. |
| ColorAssigner.ColorsRepeatWithPalettePeriod | app/src/main/java/org/thoughtcrime/securesms/conversation/colors/GroupAuthorNameColorHelper.kt:45 | With more members than colours, members `size` positions apart in sorted order share a colour. |
| ColorAssigner.DistinctColorsWhenPaletteSuffices | app/src/main/java/org/thoughtcrime/securesms/conversation/colors/GroupAuthorNameColorHelper.kt:41-45 | If the palette has distinct colours and at least as many colours as members, no two members share a colour. |
| MembershipHistory.Absorb | app/src/main/java/org/thoughtcrime/securesms/conversation/colors/GroupAuthorNameColorHelper.kt:31-34 | The group's entry becomes its old entry unioned with the observed members. The old entry is `Entry`, the stored set or the empty set when the group was never looked up, as `?: setOf()` at line 31 and `getOrDefault(groupId, setOf())` at line 59. The key set gains only that group, and every other group's entry is unchanged. |
| MembershipHistory.AbsorbNeverShrinks | app/src/main/java/org/thoughtcrime/securesms/conversation/colors/GroupAuthorNameColorHelper.kt:59-62 | After a lookup, no group's entry has lost a member, and the group's entry holds every observed member. |
| MembershipHistory.AbsorbKnownMembers | app/src/main/java/org/thoughtcrime/securesms/conversation/colors/GroupAuthorNameColorHelper.kt:19 | If the group is already cached and nobody new was observed (someone left), the cache is unchanged. |
| MembershipHistory.AbsorbTwice | app/src/main/java/org/thoughtcrime/securesms/conversation/colors/GroupAuthorNameColorHelper.kt:32 | Absorbing two observations in turn gives the same cache as absorbing their union once. |
| GroupAuthorNameColorHelper.ColorMapForGroup | app/src/main/java/org/thoughtcrime/securesms/conversation/colors/GroupAuthorNameColorHelper.kt:54-76 | The GroupId path grows only its own group's entry in `fullMemberCache` and leaves `fullMemberServiceIdsCache` untouched. It colours the cached members plus the store's members, minus self. |
| GroupAuthorNameColorHelper.ColorMapForRecord | app/src/main/java/org/thoughtcrime/securesms/conversation/colors/GroupAuthorNameColorHelper.kt:26-49 | A non-V2 record behaves exactly like a lookup by its `GroupId`. A V2 record grows only its own entry in `fullMemberServiceIdsCache`, leaves `fullMemberCache` untouched, and colours the accumulated service ids minus self. |
| GroupAuthorNameColorHelper.GetColorMapForGroup | app/src/main/java/org/thoughtcrime/securesms/conversation/colors/GroupAuthorNameColorHelper.kt:59-75 | The source's steps (get-or-default, union, store, sort, loop) give the same caches and map as `ColorMapForGroup`. |
| GroupAuthorNameColorHelper.GetColorMapForRecord | app/src/main/java/org/thoughtcrime/securesms/conversation/colors/GroupAuthorNameColorHelper.kt:27-48 | The source's steps give the same caches and map as `ColorMapForRecord`, including the delegation for non-V2 records. |
| GroupAuthorNameColorHelper.DepartureKeepsColors | app/src/main/java/org/thoughtcrime/securesms/conversation/colors/GroupAuthorNameColorHelper.kt:59-62 | On the GroupId path, a second lookup that observes nobody new leaves the caches unchanged and returns the first lookup's map. |
| GroupAuthorNameColorHelper.DepartureKeepsColorsV2 | app/src/main/java/org/thoughtcrime/securesms/conversation/colors/GroupAuthorNameColorHelper.kt:31-34 | On the V2 path, a second record of the same group with no new service ids leaves the caches unchanged and returns the first map. |
| GroupAuthorNameColorHelper.ListingOrderIrrelevant | app/src/main/java/org/thoughtcrime/securesms/conversation/colors/GroupAuthorNameColorHelper.kt:55-60 | Two store answers that name the same members, in any order and with any repeats, give the same caches and the same map. |
| GroupAuthorNameColorHelper.LookupOrderIrrelevant | app/src/main/java/org/thoughtcrime/securesms/conversation/colors/GroupAuthorNameColorHelper.kt:59-62 | Two lookups of a group in either order end with the same caches and the same map. |
| GroupAuthorNameColorHelper.PerformNeverShrinks | app/src/main/java/org/thoughtcrime/securesms/conversation/colors/GroupAuthorNameColorHelper.kt:20-21 | Any single call, on either entry point, keeps every member of every entry in both caches. |
| GroupAuthorNameColorHelper.ReplayNeverShrinks | app/src/main/java/org/thoughtcrime/securesms/conversation/colors/GroupAuthorNameColorHelper.kt:19-21 | Over any sequence of calls while the chat is open, no entry of either cache ever loses a member. |
| Scenarios.FourMembersColors | app/src/main/java/org/thoughtcrime/securesms/conversation/colors/GroupAuthorNameColorHelper.kt:64-73 | With palette Red, Green, Blue, members alice, bob, carol and dave (plus self) get Red, Green, Blue, Red. |
| Scenarios.DaveLeavesKeepsColors | app/src/main/java/org/thoughtcrime/securesms/conversation/colors/GroupAuthorNameColorHelper.kt:19 | After dave leaves, the next lookup returns the same map, and dave is still Red. |
| Scenarios.NewcomerShiftsColors | app/src/main/java/org/thoughtcrime/securesms/conversation/colors/GroupAuthorNameColorHelper.kt:64-73 | bob alone is Red. Once alice, who sorts first, is observed, bob becomes Green: colours are not stable when someone joins. |

## Left out

- The membership store query `getGroupMembers(groupId, FULL_MEMBERS_INCLUDING_SELF)` is database I/O. Its answer is the `dbMembers` input, and its failures are not modelled.
- `Recipient.self()` and `requireServiceId()` call into the recipient store. The current user is the `self` input, and their failure modes are not modelled.
- `requireStringId()`, the sort key on the GroupId path, can fail for a recipient that has no string id. The model assumes every member has one.
- `ChatColorsPalette.Names.all` is an opaque input sequence of colours. The colour definitions are not modelled.
- `Recipient`, `ServiceId` and `RecipientId` are one string identity. The model assumes `toString()`, `requireStringId()`, `RecipientId.from` and `.id` are injective and consistent with each other, so the returned map is keyed by the identity itself.
- `IdentityOrder.Less` compares Dafny characters (Unicode scalar values). Kotlin compares UTF-16 code units. The two orders differ only for characters outside the Basic Multilingual Plane.
- Kotlin's `HashMap`, `toMap()` and object identity are not modelled. Neither is thread safety: the source has no concurrency.
- There is no `reset` or clear operation, because the source has none. The caches live as long as the helper object.
