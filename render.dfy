/**
 * The prose of Room.getLongDescription and Room.getExitString, as pure
 * functions of a room's state. Actors and exit directions come from hash
 * maps whose iteration order Java leaves open, so the functions take the
 * order as a sequence; the room's methods say which orders are possible.
 */
module Render {
  import opened Sequences
  import opened Text
  import opened Entities

  /** How Java's string concatenation prints a possibly-null name. */
  function NameText(name: Option<string>): string
  {
    match name
    case Some(n) => n
    case None => "null"
  }

  /** The sentence that says an item is there, plural unless the count is exactly one. */
  function ItemPhrase(item: Item): string
  {
    if item.count != 1 then "There are " + NameText(item.name) + " laying around."
    else "There is a(n) " + NameText(item.name) + " laying around."
  }

  /** What follows the phrase: the item's description unless that is blank after trimming. */
  function ItemTail(item: Item): string
  {
    if Trim(item.description) != "" then " " + item.description + ".\n" else "\n"
  }

  /** One item's line. */
  function ItemLine(item: Item): string
  {
    ItemPhrase(item) + ItemTail(item)
  }

  /** The lines of all items, in list order. */
  function ItemLines(items: seq<Item>): string
  {
    ConcatMap(items, ItemLine)
  }

  /** The sentence that says an actor is there. */
  function ActorPhrase(actor: Actor): string
  {
    "A(n) " + actor.name + " is in the room. "
  }

  /** What follows it: the actor's description, if it has one, and a line break. */
  function ActorTail(actor: Actor): string
  {
    match actor.description
    case Some(d) => d + "\n"
    case None => "\n"
  }

  /** One actor's line. */
  function ActorLine(actor: Actor): string
  {
    ActorPhrase(actor) + ActorTail(actor)
  }

  /** The lines of the actors, in the order given. */
  function ActorLines(actors: seq<Actor>): string
  {
    ConcatMap(actors, ActorLine)
  }

  /** One direction of the exit line, with the space before it. */
  function ExitWord(dir: string): string
  {
    " " + dir
  }

  /** The directions, each after a space, in the order given. */
  function ExitList(dirs: seq<string>): string
  {
    ConcatMap(dirs, ExitWord)
  }

  /** The exit line, "Exits:" followed by the directions. */
  function ExitString(dirs: seq<string>): string
  {
    "Exits:" + ExitList(dirs)
  }

  /** The room's own sentence, with which the long description opens. */
  function Header(description: string): string
  {
    "You are " + description + ".\n"
  }

  /** The whole long description: header, item lines, actor lines, exit line. */
  function LongDescription(description: string, items: seq<Item>, actors: seq<Actor>, dirs: seq<string>): string
  {
    Header(description) + ItemLines(items) + ActorLines(actors) + ExitString(dirs)
  }

  /**
   * Whatever the items, actors and exits, the long description opens with
   * the room's own sentence; with none of them it is that sentence and "Exits:".
   */
  lemma LongDescriptionStart(description: string, items: seq<Item>, actors: seq<Actor>, dirs: seq<string>)
    ensures var s, h := LongDescription(description, items, actors, dirs), Header(description);
            |s| >= |h| && s[..|h|] == h
    ensures items == [] && actors == [] && dirs == [] ==>
            LongDescription(description, items, actors, dirs) == Header(description) + "Exits:"
  {
    var h, rest := Header(description), ItemLines(items) + ActorLines(actors) + ExitString(dirs);
    AppendAssoc(h + ItemLines(items), ActorLines(actors), ExitString(dirs));
    AppendAssoc(h, ItemLines(items), ActorLines(actors) + ExitString(dirs));
    assert LongDescription(description, items, actors, dirs) == h + (ItemLines(items) + (ActorLines(actors) + ExitString(dirs)));
    assert (h + (ItemLines(items) + (ActorLines(actors) + ExitString(dirs))))[..|h|] == h;
  }

  /**
   * The exit line opens with "Exits:" whatever the directions, and is just
   * that when there are no exits to enumerate.
   */
  lemma ExitStringStart(dirs: seq<string>, keys: set<string>)
    requires IsEnumeration(dirs, keys)
    ensures |ExitString(dirs)| >= 6 && ExitString(dirs)[..6] == "Exits:"
    ensures keys == {} ==> ExitString(dirs) == "Exits:"
  {
    assert ("Exits:" + ExitList(dirs))[..6] == "Exits:";
    EnumerationSize(dirs, keys);
  }

  /** The singular wording is used exactly for a count of one. */
  lemma SingularIffCountOne(item: Item)
    ensures |ItemLine(item)| >= 14
    ensures item.count == 1 <==> ItemLine(item)[..14] == "There is a(n) "
  {
    var n, p, t := NameText(item.name), ItemPhrase(item), ItemTail(item);
    assert ItemLine(item) == p + t;
    assert |p| >= 14;
    assert (p + t)[..14] == p[..14];
    if item.count != 1 {
      assert p == "There are " + n + " laying around.";
      assert p[6] == 'a';
      assert "There is a(n) "[6] == 'i';
    } else {
      assert p == "There is a(n) " + n + " laying around.";
      assert p[..14] == "There is a(n) ";
    }
  }

  /** The description clause follows the phrase exactly when the description is not all blank. */
  lemma ItemLineShape(item: Item)
    ensures ItemLine(item) ==
            ItemPhrase(item) + if IsBlank(item.description) then "\n" else " " + item.description + ".\n"
  {
    TrimEmptyIffBlank(item.description);
  }

  /** The exit line splits around any one position of the direction list. */
  lemma ExitStringSplit(dirs: seq<string>, i: nat)
    requires i < |dirs|
    ensures ExitString(dirs) == ExitString(dirs[..i]) + " " + dirs[i] + ExitList(dirs[i + 1..])
  {
    var before, d, after := dirs[..i], dirs[i], dirs[i + 1..];
    assert dirs == before + [d] + after;
    ConcatMapAppend(before + [d], after, ExitWord);
    ConcatMapSnoc(before, d, ExitWord);
    var x, y := ExitList(before), ExitList(after);
    assert ExitList(dirs) == x + (" " + d) + y;
    assert "Exits:" + (x + (" " + d) + y) == "Exits:" + x + " " + d + y;
  }

  /**
   * Along an enumeration of the exit keys, every key is printed, preceded
   * by a space, at the one position where it occurs, and nowhere else in
   * the enumeration.
   */
  lemma EachExitOnce(dirs: seq<string>, keys: set<string>, d: string)
    requires IsEnumeration(dirs, keys) && d in keys
    ensures exists i :: 0 <= i < |dirs| && dirs[i] == d &&
                        d !in dirs[..i] && d !in dirs[i + 1..] &&
                        ExitString(dirs) == ExitString(dirs[..i]) + " " + d + ExitList(dirs[i + 1..])
  {
    var i :| 0 <= i < |dirs| && dirs[i] == d;
    ExitStringSplit(dirs, i);
    assert d !in dirs[..i] by {
      forall k | 0 <= k < i ensures dirs[..i][k] != d {
        assert dirs[k] != dirs[i];
      }
    }
    assert d !in dirs[i + 1..] by {
      forall k | i + 1 <= k < |dirs| ensures dirs[k] != d {
        assert dirs[i] != dirs[k];
      }
    }
  }
}
