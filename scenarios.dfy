/**
 * Concrete rooms and the exact text Room.getLongDescription gives for them.
 */
module Scenarios {
  import opened Sequences
  import opened Text
  import opened Entities
  import opened Render

  /** A room with nothing in it and no exits. */
  lemma EmptyRoom(description: string)
    ensures LongDescription(description, [], [], []) == "You are " + description + ".\nExits:"
  {
  }

  /** The plural phrase for three apples. */
  lemma ApplesPhrase(apples: Item)
    requires apples.name == Some("apples") && apples.count == 3
    ensures ItemPhrase(apples) == "There are apples laying around."
  {
  }

  /** An empty description leaves only the line break. */
  lemma EmptyDescriptionTail(item: Item)
    requires item.description == ""
    ensures ItemTail(item) == "\n"
  {
    assert Trim(item.description) == "";
  }

  /** Three apples without a description. */
  lemma ApplesExample(apples: Item)
    requires apples.name == Some("apples") && apples.count == 3 && apples.description == ""
    ensures ItemLines([apples]) == "There are apples laying around.\n"
  {
    ApplesPhrase(apples);
    EmptyDescriptionTail(apples);
    ConcatMapSingle(apples, ItemLine);
  }

  /** A room whose only exit is north prints that one exit, whichever enumeration the map uses. */
  lemma NorthOnlyExample(dirs: seq<string>)
    requires IsEnumeration(dirs, {"north"})
    ensures ExitString(dirs) == "Exits: north"
  {
    EnumerationOfSingleton(dirs, "north");
    ConcatMapSingle("north", ExitWord);
  }

  /** The kitchen: three apples without a description and a single exit north. */
  lemma KitchenExample(apples: Item, dirs: seq<string>)
    requires apples.name == Some("apples") && apples.count == 3 && apples.description == ""
    requires IsEnumeration(dirs, {"north"})
    ensures LongDescription("a kitchen", [apples], [], dirs) ==
            "You are a kitchen.\n" + "There are apples laying around.\n" + "Exits: north"
  {
    ApplesExample(apples);
    NorthOnlyExample(dirs);
    assert "You are " + "a kitchen" + ".\n" == "You are a kitchen.\n";
    assert ActorLines([]) == "";
  }

  /** The singular phrase for one sword. */
  lemma SwordPhrase(sword: Item)
    requires sword.name == Some("sword") && sword.count == 1
    ensures ItemPhrase(sword) == "There is a(n) sword laying around."
  {
  }

  /** A single sword with the description "shiny". */
  lemma SwordExample(sword: Item)
    requires sword.name == Some("sword") && sword.count == 1 && sword.description == "shiny"
    ensures ItemLine(sword) == "There is a(n) sword laying around. shiny.\n"
  {
    SwordPhrase(sword);
    ItemLineShape(sword);
    assert !IsTrimmable(sword.description[0]);
  }

  /** An actor without a description gets an empty remainder of its line. */
  lemma SilentActorExample(goblin: Actor)
    requires goblin.name == "Goblin" && goblin.description == None
    ensures ActorLine(goblin) == "A(n) Goblin is in the room. \n"
  {
  }
}
