# Room of the "World of Zuul" adventure game, in Dafny

This project models `Room`, the location object of the "World of Zuul" text
adventure, and proves what its methods do. A room holds:

- a description, which can be changed;
- exits, a map from a direction to a neighbouring room;
- a trapdoor flag fixed at construction, plus a list of rooms the trapdoor may drop the player into;
- an ordered list of items;
- an optional key needed to enter;
- the actors present, a map from each actor's name to the actor.

Its methods do the following. Exit and actor methods put, get and remove
entries of a map, and the last write wins. Item and trapdoor methods append
to a list or remove the first occurrence from it. `getItemFromString` is a
first-match search. `moveActor` moves an actor from one room's map to
another's, if the conditions hold. `getLongDescription` builds a room's prose
from its state.

Files:

- `room.dfy`, module `Rooms`: the class `Room`. Its fields are the Java fields, and methods change them in place under `modifies` frames. The loops of `getItemFromString`, `getLongDescription`, `getExitString` and `getActors` are `for`/`while` loops with invariants.
- `render.dfy`, module `Render`: the text `getLongDescription` produces, as pure functions of the room's state. It also proves lemmas about that text: singular versus plural wording, when a description clause appears, and that every exit is printed once.
- `text.dfy`, module `Text`: `String.trim()` and when it yields the empty string.
- `entities.dfy`, module `Entities`: the parts of `Item` and `Actor` the room uses.
- `sequences.dfy`, module `Sequences`: the list and map facts the model needs. These are removal of the first occurrence (`ArrayList.remove(Object)`), enumerations of a key set, and reading a map along such an enumeration.
- `scenarios.dfy`, module `Scenarios`: exact texts for concrete rooms.
- `walkthrough.dfy`, module `Walkthrough`: call sequences on freshly built rooms. It shows what a caller can conclude from the contracts alone.

Java's `HashMap` does not fix the order in which it hands out keys or values.
Each method that walks the exit or actor map picks its next key
nondeterministically. It returns the order it used as a ghost out-parameter,
and it proves that this order lists every key exactly once. Each rendered
text is then stated for that order, so the proof holds for every order Java
might use.

Null references are modelled as follows:

- An item whose `getName()` is null has name `None`. Java's concatenation prints it as `null`, and the model does the same.
- An actor whose description is null has description `None`.
- Exits and trapdoor destinations may be null rooms, and the required key may be null, as in Java.

### Adding and then removing an item

Adding an item and then removing it does not always give back the original
list. `removeItem` removes the *first* occurrence. If the item was already
present and some other item lies after its first copy, that copy is removed
and the new one stays at the end, so the order changes. The precise condition
is proved as `Sequences.AppendThenRemove`: the list is restored exactly when
the item was absent, or when every entry from its first occurrence onwards is
that same item (for example, the list `[i]`). `Walkthrough.AddRemoveReorders`
gives a two-item example where the list is not restored.

## Model

| member | source | states |
|---|---|---|
| Rooms.Room.constructor | Room.java:40-47 | The new room has the given description and trapdoor flag. It has no exits, trapdoor destinations, items, actors or key, and every actor is filed under its own name. |
| Rooms.Room.Ordinary | Room.java:53-55 | The one-argument constructor gives the same empty room, with the trapdoor flag false. |
| Rooms.Room.IsTrapdoor | Room.java:60-62 | Reports the trapdoor flag fixed at construction. |
| Rooms.Room.GetExit | Room.java:64-73 | Returns the neighbour stored for a direction, and null for a direction that has no entry. |
| Rooms.Room.SetExit | Room.java:75-83 | The exit map becomes the old map with this direction set to the neighbour (last write wins). Afterwards `GetExit` of that direction returns the neighbour, and every other direction's exit is unchanged. |
| Rooms.Room.SetTrapdoorLocation | Room.java:85-91 | Appends the destination at the end, even if it is already listed. |
| Rooms.Room.GetTrapdoorLocations | Room.java:93-98 | Returns the destination list in insertion order. |
| Rooms.Room.AddItem | Room.java:100-106 | Appends the item at the end; the multiset of items gains exactly this item. |
| Rooms.Room.RemoveItem | Room.java:108-114 | The list becomes `RemoveFirst` of the old list. An absent item changes nothing. The multiset of items loses exactly one copy. |
| Sequences.RemoveFirst | Room.java:112-114 | `ArrayList.remove(Object)`: with no occurrence the list is unchanged; otherwise the result is the parts before and after the first occurrence, joined in order. |
| Sequences.RemoveFirstMultiset | Room.java:112-114 | Removal takes away exactly one copy of the item, when there is one. |
| Sequences.RemoveFirstLength | Room.java:112-114 | Removal shortens the list by one exactly when the item occurs. |
| Sequences.AppendThenRemoveShape | Room.java:104-114 | For an item already present, adding and then removing it moves its first copy to the end. |
| Sequences.AppendThenRemove | Room.java:104-114 | Adding then removing an item restores the list if and only if the item was absent or everything from its first occurrence on is that item. |
| Rooms.Room.GetItems | Room.java:116-121 | Returns the items in list order. |
| Rooms.Room.GetItemFromString | Room.java:123-139 | Returns null exactly when no item has a non-null name equal to the argument. Otherwise it returns the item at the first index whose name is non-null and equal. |
| Rooms.Room.GetShortDescription | Room.java:141-147 | Returns the description given at construction or by the last `SetDescription`. |
| Rooms.Room.SetDescription | Room.java:149-156 | Replaces the description. |
| Rooms.Room.GetLongDescription | Room.java:158-200 | Returns "You are " + description + ".\n", then the item lines in list order, then one line for each actor in some enumeration of the actor map, then the exit line for some enumeration of the exit keys. The method proves that both orders list every key exactly once. In every order the text opens with the room's sentence. With no items, actors or exits it is that sentence followed by "Exits:". |
| Rooms.Room.DescribeItems | Room.java:168-184 | The item loop produces exactly the item lines, in list order. |
| Rooms.Room.DescribeActors | Room.java:186-195 | The actor loop produces one actor line for each value of the actor map. The lines follow an order that enumerates the keys. With no actors it produces nothing. |
| Rooms.Room.GetExitString | Room.java:202-214 | Returns "Exits:" followed by " " + direction for every exit key, each exactly once, in an order that enumerates the keys. The line always opens with "Exits:", and is only that when there are no exits. |
| Render.LongDescriptionStart | Room.java:166-199 | The long description opens with "You are " + description + ".\n" whatever follows. With no items, actors or exits, that sentence is followed only by "Exits:". |
| Render.ExitStringStart | Room.java:207-214 | Along any enumeration of the exit keys, the exit line opens with "Exits:", and is only that for an empty key set. |
| Render.SingularIffCountOne | Room.java:171-176 | An item line starts with "There is a(n) " exactly when the count is one; otherwise it uses the plural wording. |
| Render.ItemLineShape | Room.java:178-183 | The description clause " " + description + ".\n" follows the phrase exactly when the description is not all whitespace. Otherwise the phrase is followed by "\n" alone. |
| Entities.Item.constructor | Room.java:169-183 | An item exposes the three things the room reads through `getName`, `getCount` and `getItemDescription`: its name (absent for a null name), its count and its description. Item.java is not part of this model. |
| Entities.Actor.constructor | Room.java:187-194 | An actor exposes the two things the room reads through `getName` and `getDescription`: its name and its description (absent for a null description). Actor.java is not part of this model. |
| Rooms.Room.Valid | Room.java:238-241 | The invariant that every actor is filed under its own name, which is how `setActor` files them. |
| Render.ItemPhrase | Room.java:172-176 | Defines the item sentence: "There are <name> laying around." unless the count is one, then "There is a(n) <name> laying around."; a null name prints as "null". |
| Render.ItemTail | Room.java:179-183 | Defines what follows the item sentence: " " + description + ".\n" when the trimmed description is not empty, otherwise "\n". |
| Render.ActorLine | Room.java:189-194 | Defines an actor's line: "A(n) <name> is in the room. ", then the description if it is not null, then "\n". |
| Render.ExitString | Room.java:207-214 | Defines the exit line for a given order of the directions: "Exits:" and then " " + direction for each. |
| Render.LongDescription | Room.java:164-200 | Defines the long description for given actor and direction orders: "You are " + description + ".\n", the item lines in list order, the actor lines, the exit line. |
| Text.Trim | Room.java:179 | `String.trim()`: the result is the stretch of the input left after cutting off characters at most U+0020 at both ends, and it starts and ends with a character above U+0020. |
| Text.TrimEmptyIffBlank | Room.java:179 | `trim()` gives the empty string exactly when every character is at most U+0020. |
| Text.TrimStart | Room.java:179 | Leading strip of `trim()`: drops only characters that are at most U+0020. The result is a suffix of the input and starts with a character that is not stripped. |
| Text.TrimEnd | Room.java:179 | Trailing strip of `trim()`: drops only characters that are at most U+0020. The result is a prefix of the input and ends with a character that is not stripped. |
| Text.VisibleNotBlank | Room.java:179 | A description starting with a visible character is not empty after trimming. |
| Render.ExitStringSplit | Room.java:207-214 | The exit line splits at any position of the direction order into the part before, " " + that direction, and the part after. |
| Render.EachExitOnce | Room.java:207-214 | For every exit key there is exactly one position in the order where it is printed, preceded by a space. |
| Sequences.EnumerationSize | Room.java:209-210 | A key order that lists every key of the set once, and nothing else, is as long as the set. |
| Scenarios.EmptyRoom | Room.java:164-214 | A room without items, actors or exits reads "You are " + description + ".\nExits:". |
| Scenarios.ApplesExample | Room.java:169-184 | Three apples without a description give "There are apples laying around.\n". |
| Scenarios.NorthOnlyExample | Room.java:207-214 | A room whose only exit is north prints "Exits: north", whatever order the map uses. |
| Scenarios.KitchenExample | Room.java:164-214 | The kitchen with three undescribed apples and one exit north reads "You are a kitchen.\nThere are apples laying around.\nExits: north". |
| Scenarios.SwordExample | Room.java:169-184 | A single sword described "shiny" gives "There is a(n) sword laying around. shiny.\n". |
| Scenarios.SilentActorExample | Room.java:186-195 | An actor without a description gives "A(n) Goblin is in the room. \n". |
| Rooms.Room.GetRequiredKey | Room.java:216-222 | Returns the stored key, or null. |
| Rooms.Room.SetRequiredKey | Room.java:224-231 | Stores the key. |
| Rooms.Room.SetActor | Room.java:233-241 | Files the actor under its own name, replacing any actor of that name. Every actor stays filed under its own name. |
| Rooms.Room.GetActor | Room.java:243-251 | Returns the actor filed under the name, or null. A returned actor carries that name. |
| Rooms.Room.GetActors | Room.java:253-256 | Returns a new list holding the map's values, each exactly once, one per key. It is as long as the map, and an actor is in it exactly when it is in the map. |
| Sequences.ValuesInOrder | Room.java:255 | Reading a map along a key order gives, at each position, the value of the key at that position. |
| Sequences.ValuesOfEnumeration | Room.java:255 | Reading a map along an enumeration of its keys yields every value of the map and no other. |
| Entities.KeyedValuesDistinct | Room.java:238-256 | If every actor is filed under its own name, the actors listed along a key enumeration are pairwise distinct. |
| Rooms.Room.RemoveActor | Room.java:258-265 | Deletes the name's entry; an absent name changes nothing. Every actor stays filed under its own name. |
| Rooms.Room.MoveActor | Room.java:267-285 | If the name is present and the target room is non-null, the actor leaves this room's map and is filed under its name in the target room. Moving an actor into its own room leaves it there. Otherwise neither room's map changes. No other field of either room changes. Two rooms with disjoint actor names keep them disjoint. |
| Walkthrough.KitchenTour | Room.java:40-214 | Building the kitchen with calls on a new room and asking for its long description yields exactly the kitchen text. |
| Walkthrough.LastActorWins | Room.java:238-256 | After two same-named actors are set, `GetActors` lists only the second. |
| Walkthrough.MoveBetweenRooms | Room.java:273-285 | After a move, the first room no longer has the actor and the second one does. |
| Walkthrough.MoveNothing | Room.java:273-285 | Moving an absent actor reports the failure, moving an actor to a null room reports the failure too, and after both the actor is still in its room. |
| Walkthrough.TrapdoorTwice | Room.java:89-98 | A destination added twice is listed twice. |
| Walkthrough.AddRemoveReorders | Room.java:104-121 | `[key, lamp]`, after adding `key` and then removing `key`, becomes `[lamp, key]`. |
| Walkthrough.FirstOfName | Room.java:130-139 | The search skips a nameless item and returns the first of two items with the name. |

## Left out

- Player.java is not part of this model: it holds no state and has no operations.
- The debug line that `moveActor` prints when the actor or the room is missing is not modelled as output. `MoveActor` instead returns the outcome `ActorOrRoomMissing` in that case.
- HashMap iteration order is not fixed. The exit and actor loops take any order that lists each key once, and their results are stated for the order they took.
- `getItems` and `getTrapdoorLocations` return Java's internal lists, so a caller can change the room through them. The model returns the current sequence value, so this aliasing is not captured.
- Null items and null-named actors are not modelled. Java stores them: `addItem(null)` puts null in the item list and `removeItem(null)` removes the first null (Room.java:105, 113), and `setActor` files an actor with a null name under the key null (Room.java:240). Java throws a NullPointerException only later, when `getItemFromString` or `getLongDescription` reads a null item (Room.java:132, 172). The model's `items: seq<Item>` and `actors: map<string, Actor>` cannot hold null, so neither the storage nor the later exception is captured.
- A null actor passed to `setActor` throws at once in Java (Room.java:240); the model's `Actor` parameter cannot be null, so this exception is not captured.
- Strings are never null in the model. A null room description, direction or actor name, which Java would store, or print as "null", is not captured.
- `Item` and `Actor` are modelled only through the accessors the room calls: name, count and description for an item, and name and description for an actor. Item weight and the other members of both classes are not part of this model.
- Items are compared by reference, Java's default `equals`. An overriding `equals` in `Item` is not part of this model.
- The required key is only stored and returned. Nothing in the room enforces it.
- `GetLongDescription` runs its two loops in the helper methods `DescribeItems` and `DescribeActors`, in the same order and with the same text as the single Java method.
- `GetActors` models the copying done by `new ArrayList<>(actorList.values())` as an explicit loop that builds a fresh sequence.
- `String.trim()` is modelled as stripping characters at or below U+0020 from both ends, which is the definition Java uses. Strings are sequences of characters, with no encoding.
- `Rooms.Room.SetActor`, `RemoveActor` and `MoveActor` require every actor to be filed under its own name, which the constructors establish and every method keeps. Java places no such precondition. It holds in every reachable room only because an actor's name never changes once the actor is filed, which the model assumes by making `Actor.name` a constant; Actor.java is not part of this model. If a name could change, Java's `moveActor` would remove the key `actor.getName()` rather than `actorName` (Room.java:280), and the actor would stay in the first room under its old key. The model does not capture that case.
