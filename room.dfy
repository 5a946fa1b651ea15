/**
 * A location of the adventure game: its description, exits to neighbouring
 * rooms, the items lying in it, the actors in it, the rooms a trapdoor may
 * drop one into, and the key needed to enter it.
 *
 * Java's HashMap hands out the keys of the exit and actor maps in an order
 * it does not specify. The methods that walk those maps pick the next key
 * nondeterministically and report the order they used in a ghost
 * out-parameter, so their results are stated for that order, whichever it is.
 */
module Rooms {
  import opened Sequences
  import opened Entities
  import opened Render
  import Text

  /** What moveActor did. The failure case is where Java prints a debug line. */
  datatype MoveOutcome = Moved | ActorOrRoomMissing

  class Room {
    var description: string
    var exits: map<string, Room?>
    const isTrapdoor: bool
    var trapdoorLocations: seq<Room?>
    var items: seq<Item>
    var requiredKey: Item?
    var actors: map<string, Actor>

    /** Every actor is filed under its own name. */
    ghost predicate Valid()
      reads this`actors
    {
      KeyedByName(actors)
    }

    /** A room with the given description and trapdoor flag, with no exits, items, actors or key. */
    constructor (description: string, isTrapdoor: bool)
      ensures Valid()
      ensures this.description == description && this.isTrapdoor == isTrapdoor
      ensures exits == map[] && trapdoorLocations == [] && items == []
      ensures requiredKey == null && actors == map[]
    {
      this.description := description;
      exits := map[];
      items := [];
      this.isTrapdoor := isTrapdoor;
      trapdoorLocations := [];
      actors := map[];
      requiredKey := null;
    }

    /** The one-argument constructor: an ordinary room, not a trapdoor. */
    constructor Ordinary(description: string)
      ensures Valid()
      ensures this.description == description && !isTrapdoor
      ensures exits == map[] && trapdoorLocations == [] && items == []
      ensures requiredKey == null && actors == map[]
    {
      this.description := description;
      exits := map[];
      items := [];
      isTrapdoor := false;
      trapdoorLocations := [];
      actors := map[];
      requiredKey := null;
    }

    /** Whether this is a trapdoor room; fixed when the room is made. */
    function IsTrapdoor(): (r: bool)
      ensures r <==> isTrapdoor
    {
      isTrapdoor
    }

    /** The neighbour in `direction`, or null when no exit was ever set for it. */
    function GetExit(direction: string): (r: Room?)
      reads this`exits
      ensures direction in exits ==> r == exits[direction]
      ensures direction !in exits ==> r == null
    {
      if direction in exits then exits[direction] else null
    }

    /** Sets or replaces the exit in `direction`; every other direction keeps its exit. */
    method SetExit(direction: string, neighbor: Room?)
      modifies this`exits
      ensures exits == old(exits)[direction := neighbor]
      ensures GetExit(direction) == neighbor
      ensures forall d :: d != direction ==> GetExit(d) == old(GetExit(d))
    {
      exits := exits[direction := neighbor];
    }

    /** Adds a room the trapdoor may lead to, at the end, even if it is already listed. */
    method SetTrapdoorLocation(location: Room?)
      modifies this`trapdoorLocations
      ensures trapdoorLocations == old(trapdoorLocations) + [location]
    {
      trapdoorLocations := trapdoorLocations + [location];
    }

    /** The trapdoor destinations in the order they were added. */
    function GetTrapdoorLocations(): (r: seq<Room?>)
      reads this`trapdoorLocations
      ensures r == trapdoorLocations
    {
      trapdoorLocations
    }

    /** Puts an item at the end of the item list. */
    method AddItem(item: Item)
      modifies this`items
      ensures items == old(items) + [item]
      ensures multiset(items) == multiset(old(items)) + multiset{item}
    {
      items := items + [item];
    }

    /**
     * Removes the first occurrence of `item`; the other items keep their
     * order, and an absent item changes nothing.
     */
    method RemoveItem(item: Item)
      modifies this`items
      ensures items == RemoveFirst(old(items), item)
      ensures item !in old(items) ==> items == old(items)
      ensures multiset(items) == multiset(old(items)) - multiset{item}
    {
      RemoveFirstMultiset(items, item);
      items := RemoveFirst(items, item);
    }

    /** The items in list order. */
    function GetItems(): (r: seq<Item>)
      reads this`items
      ensures r == items
    {
      items
    }

    /** The first item, in list order, whose name is present and equals `itemName`; null if none is. */
    method GetItemFromString(itemName: string) returns (r: Item?)
      ensures r == null <==> forall i :: 0 <= i < |items| ==> items[i].name != Some(itemName)
      ensures r != null ==> exists i :: 0 <= i < |items| && items[i] == r && r.name == Some(itemName) &&
                                        forall j :: 0 <= j < i ==> items[j].name != Some(itemName)
    {
      for k := 0 to |items|
        invariant forall j :: 0 <= j < k ==> items[j].name != Some(itemName)
      {
        var item := items[k];
        if item.name.Some? && item.name.value == itemName {
          return item;
        }
      }
      return null;
    }

    /** The description given at construction or by the last SetDescription. */
    function GetShortDescription(): (r: string)
      reads this`description
      ensures r == description
    {
      description
    }

    /** Replaces the description. */
    method SetDescription(description: string)
      modifies this`description
      ensures this.description == description
    {
      this.description := description;
    }

    /** The exit line: "Exits:" and then each direction once, in the map's order. */
    method GetExitString() returns (s: string, ghost dirs: seq<string>)
      ensures IsEnumeration(dirs, exits.Keys)
      ensures s == ExitString(dirs)
      ensures |s| >= 6 && s[..6] == "Exits:"
      ensures exits == map[] ==> s == "Exits:"
    {
      s := "Exits:";
      dirs := [];
      var rest := exits.Keys;
      while rest != {}
        invariant rest <= exits.Keys
        invariant forall d :: d in dirs ==> d in exits.Keys && d !in rest
        invariant forall d :: d in exits.Keys ==> d in dirs || d in rest
        invariant Distinct(dirs)
        invariant s == ExitString(dirs)
        decreases rest
      {
        var d :| d in rest;
        ConcatMapSnoc(dirs, d, ExitWord);
        s := s + " " + d;
        dirs := dirs + [d];
        rest := rest - {d};
      }
      ExitStringStart(dirs, exits.Keys);
    }

    /** The item part of the long description (the first loop of getLongDescription). */
    method DescribeItems() returns (s: string)
      ensures s == ItemLines(items)
    {
      s := "";
      for k := 0 to |items|
        invariant s == ItemLines(items[..k])
      {
        var item := items[k];
        ghost var before := s;
        if item.count != 1 {
          s := s + ("There are " + NameText(item.name) + " laying around.");
        } else {
          s := s + ("There is a(n) " + NameText(item.name) + " laying around.");
        }
        assert s == before + ItemPhrase(item);
        ghost var phrased := s;
        if Text.Trim(item.description) != "" {
          s := s + (" " + item.description + ".\n");
        } else {
          s := s + "\n";
        }
        assert s == phrased + ItemTail(item);
        AppendAssoc(before, ItemPhrase(item), ItemTail(item));
        TakeSnoc(items, k);
        ConcatMapSnoc(items[..k], item, ItemLine);
      }
      assert items[..|items|] == items;
    }

    /** The actor part of the long description (the second loop), in the map's order. */
    method DescribeActors() returns (s: string, ghost order: seq<string>)
      ensures IsEnumeration(order, actors.Keys)
      ensures s == ActorLines(ValuesInOrder(actors, order))
      ensures actors == map[] ==> s == ""
    {
      s, order := "", [];
      var rest := actors.Keys;
      while rest != {}
        invariant rest <= actors.Keys
        invariant forall n :: n in order ==> n in actors.Keys && n !in rest
        invariant forall n :: n in actors.Keys ==> n in order || n in rest
        invariant Distinct(order)
        invariant s == ActorLines(ValuesInOrder(actors, order))
        decreases rest
      {
        var n :| n in rest;
        var actor := actors[n];
        ghost var before := s;
        s := s + ("A(n) " + actor.name + " is in the room. ");
        if actor.description.Some? {
          s := s + (actor.description.value + "\n");
        } else {
          s := s + "\n";
        }
        AppendAssoc(before, ActorPhrase(actor), ActorTail(actor));
        ValuesInOrderSnoc(actors, order, n);
        ConcatMapSnoc(ValuesInOrder(actors, order), actor, ActorLine);
        order := order + [n];
        rest := rest - {n};
      }
      if actors == map[] {
        EnumerationSize(order, actors.Keys);
      }
    }

    /**
     * The long description: the room's own sentence, one line per item in
     * list order, one line per actor in the map's order, and the exit line.
     */
    method GetLongDescription() returns (s: string, ghost actorOrder: seq<string>, ghost dirs: seq<string>)
      ensures IsEnumeration(actorOrder, actors.Keys) && IsEnumeration(dirs, exits.Keys)
      ensures s == LongDescription(description, items, ValuesInOrder(actors, actorOrder), dirs)
      ensures |s| >= |Header(description)| && s[..|Header(description)|] == Header(description)
      ensures items == [] && actors == map[] && exits == map[] ==> s == Header(description) + "Exits:"
    {
      s := Header(description);
      var itemText := DescribeItems();
      s := s + itemText;
      var actorText;
      actorText, actorOrder := DescribeActors();
      s := s + actorText;
      var exitString;
      exitString, dirs := GetExitString();
      s := s + exitString;
      LongDescriptionStart(description, items, ValuesInOrder(actors, actorOrder), dirs);
    }

    /** The key needed to enter, or null. */
    function GetRequiredKey(): (r: Item?)
      reads this`requiredKey
      ensures r == requiredKey
    {
      requiredKey
    }

    /** Stores the key needed to enter; nothing checks it here. */
    method SetRequiredKey(key: Item?)
      modifies this`requiredKey
      ensures requiredKey == key
    {
      requiredKey := key;
    }

    /** Files `actor` under its own name, replacing any actor of that name. */
    method SetActor(actor: Actor)
      requires Valid()
      modifies this`actors
      ensures Valid()
      ensures actors == old(actors)[actor.name := actor]
    {
      actors := actors[actor.name := actor];
    }

    /** The actor filed under `name`, or null. */
    function GetActor(name: string): (r: Actor?)
      reads this`actors
      ensures name in actors ==> r == actors[name]
      ensures name !in actors ==> r == null
      ensures Valid() && r != null ==> r.name == name
    {
      if name in actors then actors[name] else null
    }

    /** A new list of the actors in the room, each once, in the map's order. */
    method GetActors() returns (r: seq<Actor>, ghost order: seq<string>)
      ensures IsEnumeration(order, actors.Keys) && r == ValuesInOrder(actors, order)
      ensures |r| == |actors| && forall a :: a in r <==> a in actors.Values
      ensures Valid() ==> Distinct(r)
    {
      r, order := [], [];
      var rest := actors.Keys;
      while rest != {}
        invariant rest <= actors.Keys
        invariant forall n :: n in order ==> n in actors.Keys && n !in rest
        invariant forall n :: n in actors.Keys ==> n in order || n in rest
        invariant Distinct(order)
        invariant r == ValuesInOrder(actors, order)
        decreases rest
      {
        var n :| n in rest;
        ValuesInOrderSnoc(actors, order, n);
        r := r + [actors[n]];
        order := order + [n];
        rest := rest - {n};
      }
      ValuesOfEnumeration(actors, order);
      if Valid() {
        KeyedValuesDistinct(actors, order);
      }
    }

    /** Takes the actor called `name` out of the room, if there is one. */
    method RemoveActor(name: string)
      requires Valid()
      modifies this`actors
      ensures Valid()
      ensures actors == old(actors) - {name}
    {
      actors := actors - {name};
    }

    /**
     * Moves the actor called `actorName` from this room to `room`. When the
     * actor is here and `room` is a room, the actor leaves this room's map and
     * is filed under its name in `room` (so moving into this same room leaves
     * it where it was); otherwise neither room changes.
     */
    method MoveActor(actorName: string, room: Room?) returns (outcome: MoveOutcome)
      requires Valid() && (room != null ==> room.Valid())
      modifies this`actors, if room == null then {} else {room}
      ensures Valid() && (room != null ==> room.Valid())
      ensures outcome == if actorName in old(actors) && room != null then Moved else ActorOrRoomMissing
      ensures room != null ==> room.description == old(room.description) && room.exits == old(room.exits) &&
                               room.items == old(room.items) && room.trapdoorLocations == old(room.trapdoorLocations) &&
                               room.requiredKey == old(room.requiredKey)
      ensures outcome == ActorOrRoomMissing ==>
                actors == old(actors) && (room != null ==> room.actors == old(room.actors))
      ensures outcome == Moved && room == this ==> actors == old(actors)
      ensures outcome == Moved && room != this ==>
                actors == old(actors) - {actorName} &&
                room.actors == old(room.actors)[actorName := old(actors)[actorName]]
      ensures outcome == Moved && room != this ==> actorName !in actors && actorName in room.actors
      ensures room != null && room != this && old(actors.Keys !! room.actors.Keys) ==>
                actors.Keys !! room.actors.Keys
    {
      var actor := GetActor(actorName);
      if actor != null && room != null {
        actors := actors - {actor.name};
        room.SetActor(actor);
        outcome := Moved;
      } else {
        outcome := ActorOrRoomMissing;
      }
    }
  }
}
