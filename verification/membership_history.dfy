/**
 The membership history the helper keeps per group: a map from group id to every
 identity observed for that group while the chat is open. Each lookup unions the
 newly observed members into the group's entry and writes the union back under
 that group's key only, so an entry never shrinks and a member who left is
 still counted. Their place, and so their colour, holds as long as no newly
 observed member sorts before them.
 */
module MembershipHistory {
  import opened IdentityOrder

  /** A group's identifier; compared by value. */
  datatype GroupId = GroupId(value: string)

  /** One of the helper's caches: group id to accumulated members. */
  type History = map<GroupId, set<Identity>>

  /** The entry for `g`, or the empty set when the group was never looked up. */
  function Entry(h: History, g: GroupId): (e: set<Identity>)
    ensures g in h ==> e == h[g]
    ensures g !in h ==> e == {}
  {
    if g in h then h[g] else {}
  }

  /** `h'` is `h` after absorbing `observed` into the entry for `g`, and nothing else changed. */
  ghost predicate Absorbed(h: History, h': History, g: GroupId, observed: set<Identity>)
  {
    && g in h'
    && h'[g] == Entry(h, g) + observed
    && h'.Keys == h.Keys + {g}
    && forall k :: k in h && k != g ==> h'[k] == h[k]
  }

  /** Unions the observed members into the entry for `g` and stores the union under `g`. */
  function Absorb(h: History, g: GroupId, observed: set<Identity>): (h': History)
    ensures Absorbed(h, h', g, observed)
  {
    h[g := Entry(h, g) + observed]
  }

  /** No entry of any group loses a member. */
  lemma AbsorbNeverShrinks(h: History, g: GroupId, observed: set<Identity>)
    ensures forall k :: Entry(h, k) <= Entry(Absorb(h, g, observed), k)
    ensures observed <= Entry(Absorb(h, g, observed), g)
  {
  }

  /** Observing only members already on record (someone left) changes nothing. */
  lemma AbsorbKnownMembers(h: History, g: GroupId, observed: set<Identity>)
    requires g in h && observed <= h[g]
    ensures Absorb(h, g, observed) == h
  {
    assert Entry(h, g) + observed == h[g];
    assert h[g := h[g]] == h;
  }

  /** Absorbing two observations one after the other is absorbing their union once. */
  lemma AbsorbTwice(h: History, g: GroupId, a: set<Identity>, b: set<Identity>)
    ensures Absorb(Absorb(h, g, a), g, b) == Absorb(h, g, a + b)
  {
    assert Entry(Absorb(h, g, a), g) + b == Entry(h, g) + (a + b);
  }
}
