/**
 * Short sequences of calls on freshly built rooms, and what a caller of
 * Room can conclude from the contracts alone.
 */
module Walkthrough {
  import opened Sequences
  import opened Entities
  import opened Render
  import opened Rooms
  import opened Scenarios

  /** A kitchen holding `apples`, with a hall to the north. */
  method BuildKitchen(apples: Item) returns (kitchen: Room)
    ensures kitchen.description == "a kitchen" && kitchen.items == [apples]
    ensures kitchen.actors == map[] && kitchen.exits.Keys == {"north"}
  {
    kitchen := new Room.Ordinary("a kitchen");
    var hall := new Room.Ordinary("a hall");
    kitchen.SetExit("north", hall);
    kitchen.AddItem(apples);
  }

  /** A kitchen with apples and one exit north describes itself exactly. */
  method KitchenTour(apples: Item) returns (text: string)
    requires apples.name == Some("apples") && apples.count == 3 && apples.description == ""
    ensures text == "You are a kitchen.\n" + "There are apples laying around.\n" + "Exits: north"
  {
    var kitchen := BuildKitchen(apples);
    ghost var actorOrder, dirs;
    text, actorOrder, dirs := kitchen.GetLongDescription();
    EnumerationSize(actorOrder, {});
    KitchenText(text, kitchen.description, kitchen.items, ValuesInOrder(kitchen.actors, actorOrder), apples, dirs);
  }

  /** The kitchen's text, from the parts of its state the long description reads. */
  lemma KitchenText(text: string, description: string, items: seq<Item>, actors: seq<Actor>, apples: Item, dirs: seq<string>)
    requires apples.name == Some("apples") && apples.count == 3 && apples.description == ""
    requires description == "a kitchen" && items == [apples] && actors == [] && IsEnumeration(dirs, {"north"})
    requires text == LongDescription(description, items, actors, dirs)
    ensures text == "You are a kitchen.\n" + "There are apples laying around.\n" + "Exits: north"
  {
    KitchenExample(apples, dirs);
  }

  /** Of two actors with the same name, the one set last is the only one listed. */
  method LastActorWins(first: Actor, second: Actor) returns (listed: seq<Actor>)
    requires first.name == second.name
    ensures listed == [second]
  {
    var cave := new Room.Ordinary("a cave");
    cave.SetActor(first);
    cave.SetActor(second);
    assert cave.actors == map[second.name := second];
    ghost var order;
    listed, order := cave.GetActors();
    EnumerationOfSingleton(order, second.name);
  }

  /** Moving an actor to another room takes it out of the first and files it in the second. */
  method MoveBetweenRooms(goblin: Actor) returns (left: Actor?, arrived: Actor?)
    ensures left == null && arrived == goblin
  {
    var hall := new Room.Ordinary("a hall");
    var cellar := new Room.Ordinary("a cellar");
    hall.SetActor(goblin);
    var outcome := hall.MoveActor(goblin.name, cellar);
    left := hall.GetActor(goblin.name);
    arrived := cellar.GetActor(goblin.name);
  }

  /** Moving an actor nobody has, or to no room, reports the failure and changes nothing. */
  method MoveNothing(goblin: Actor, other: string) returns (missing: MoveOutcome, nowhere: MoveOutcome, stayed: Actor?)
    requires other != goblin.name
    ensures missing == ActorOrRoomMissing && nowhere == ActorOrRoomMissing && stayed == goblin
  {
    var hall := new Room.Ordinary("a hall");
    hall.SetActor(goblin);
    var cellar := new Room.Ordinary("a cellar");
    missing := hall.MoveActor(other, cellar);
    nowhere := hall.MoveActor(goblin.name, null);
    stayed := hall.GetActor(goblin.name);
  }

  /** The same destination added twice is listed twice, in insertion order. */
  method TrapdoorTwice() returns (destinations: seq<Room?>, pit: Room)
    ensures destinations == [pit, pit]
  {
    var trap := new Room("a dark corridor", true);
    pit := new Room.Ordinary("a pit");
    trap.SetTrapdoorLocation(pit);
    trap.SetTrapdoorLocation(pit);
    destinations := trap.GetTrapdoorLocations();
  }

  /**
   * Adding an item that is already present and removing it again does not
   * restore the list when something else lies behind its first copy.
   */
  method AddRemoveReorders(key: Item, lamp: Item) returns (before: seq<Item>, after: seq<Item>)
    requires key != lamp
    ensures before == [key, lamp] && after == [lamp, key]
  {
    var attic := new Room.Ordinary("an attic");
    attic.AddItem(key);
    attic.AddItem(lamp);
    before := attic.GetItems();
    attic.AddItem(key);
    assert attic.items == [key, lamp, key];
    assert RemoveFirst([key, lamp, key], key) == [lamp, key];
    attic.RemoveItem(key);
    after := attic.GetItems();
  }

  /** The search finds the first item of the name, skipping nameless items. */
  method FirstOfName(nameless: Item, a: Item, b: Item) returns (found: Item?)
    requires nameless.name == None && a.name == Some("coin") && b.name == Some("coin")
    ensures found == a
  {
    var vault := new Room.Ordinary("a vault");
    vault.AddItem(nameless);
    vault.AddItem(a);
    vault.AddItem(b);
    found := vault.GetItemFromString("coin");
    assert vault.items == [nameless, a, b];
  }
}
