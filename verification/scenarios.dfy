/**
 Worked lookups on concrete groups: a three-colour palette with four members who
 keep their colours after one of them leaves, and a newcomer who sorts first and
 so moves an existing member to the next colour.
 */
module Scenarios {
  import opened IdentityOrder
  import opened SortedIdentities
  import opened ColorAssigner
  import opened MembershipHistory
  import opened GroupAuthorNameColorHelper

  datatype SampleColor = Red | Green | Blue

  const Palette: seq<SampleColor> := [Red, Green, Blue]
  const Group: GroupId := GroupId("family")

  lemma FourMembersEnumerated()
    ensures Enumerates(["alice", "bob", "carol", "dave"], {"alice", "bob", "carol", "dave", "me"} - {"me"})
  {
    assert Less("alice", "bob") && Less("bob", "carol") && Less("carol", "dave");
    LessTransitive("alice", "bob", "carol");
    LessTransitive("alice", "carol", "dave");
    LessTransitive("bob", "carol", "dave");
  }

  /** The rank colouring of the four members with self excluded. */
  lemma FourMembersColors()
    ensures AssignColors({"alice", "bob", "carol", "dave", "me"}, "me", Palette)
         == Ok(map["alice" := Red, "bob" := Green, "carol" := Blue, "dave" := Red])
  {
    var all: set<Identity> := {"alice", "bob", "carol", "dave", "me"};
    var sorted: seq<Identity> := ["alice", "bob", "carol", "dave"];
    FourMembersEnumerated();
    SortedPositionColor(all, "me", Palette, sorted, 0);
    SortedPositionColor(all, "me", Palette, sorted, 1);
    SortedPositionColor(all, "me", Palette, sorted, 2);
    SortedPositionColor(all, "me", Palette, sorted, 3);
    assert all - {"me"} == {"alice", "bob", "carol", "dave"};
    var colors := AssignColors(all, "me", Palette).value;
    var want := map["alice" := Red, "bob" := Green, "carol" := Blue, "dave" := Red];
    assert colors.Keys == want.Keys;
    assert forall x | x in want :: colors[x] == want[x];
    assert colors == want;
  }

  /**
   The store first lists alice, bob, carol, dave and self: they get Red, Green,
   Blue, Red. After dave leaves, the store lists the others, and the next lookup
   returns the same map, with dave still Red.
   */
  lemma DaveLeavesKeepsColors()
    ensures var first := ColorMapForGroup(Fresh, Group, ["dave", "carol", "me", "bob", "alice"], "me", Palette);
            && first.colors == Ok(map["alice" := Red, "bob" := Green, "carol" := Blue, "dave" := Red])
            && ColorMapForGroup(first.caches, Group, ["alice", "me", "bob", "carol"], "me", Palette) == first
  {
    var before: seq<Identity> := ["dave", "carol", "me", "bob", "alice"];
    var after: seq<Identity> := ["alice", "me", "bob", "carol"];
    var all: set<Identity> := {"alice", "bob", "carol", "dave", "me"};
    assert Members(before) == all;
    assert Members(after) <= all;
    assert Entry(Fresh.fullMemberCache, Group) + Members(before) == all;
    FourMembersColors();
    DepartureKeepsColors(Fresh, Group, before, after, "me", Palette);
  }

  lemma BobAloneColors()
    ensures AssignColors({"bob"}, "me", Palette) == Ok(map["bob" := Red])
  {
    assert {"bob"} - {"me"} == {"bob"};
    assert Enumerates(["bob"], {"bob"} - {"me"});
    SortedPositionColor({"bob"}, "me", Palette, ["bob"], 0);
    assert AssignColors({"bob"}, "me", Palette).value == map["bob" := Red];
  }

  lemma AliceAndBobColors()
    ensures AssignColors({"alice", "bob"}, "me", Palette) == Ok(map["alice" := Red, "bob" := Green])
  {
    assert {"alice", "bob"} - {"me"} == {"alice", "bob"};
    assert Less("alice", "bob");
    assert Enumerates(["alice", "bob"], {"alice", "bob"} - {"me"});
    SortedPositionColor({"alice", "bob"}, "me", Palette, ["alice", "bob"], 0);
    SortedPositionColor({"alice", "bob"}, "me", Palette, ["alice", "bob"], 1);
    var colors := AssignColors({"alice", "bob"}, "me", Palette).value;
    var want := map["alice" := Red, "bob" := Green];
    assert colors.Keys == want.Keys;
    assert colors == want;
  }

  /**
   Colours can change while the chat is open: bob alone is Red, and once alice
   (who sorts before bob) is observed, bob becomes Green.
   */
  lemma NewcomerShiftsColors()
    ensures var first := ColorMapForGroup(Fresh, Group, ["bob"], "me", Palette);
            var second := ColorMapForGroup(first.caches, Group, ["alice", "bob"], "me", Palette);
            && first.colors == Ok(map["bob" := Red])
            && second.colors == Ok(map["alice" := Red, "bob" := Green])
  {
    var first := ColorMapForGroup(Fresh, Group, ["bob"], "me", Palette);
    assert Members(["bob"]) == {"bob"};
    assert Members(["alice", "bob"]) == {"alice", "bob"};
    assert Entry(Fresh.fullMemberCache, Group) + Members(["bob"]) == {"bob"};
    assert Entry(first.caches.fullMemberCache, Group) + Members(["alice", "bob"]) == {"alice", "bob"};
    BobAloneColors();
    AliceAndBobColors();
  }
}
