/**
 * The collaborators a room stores: items and actors. Only the accessors the
 * room calls are modelled (an item's name, count and description; an
 * actor's name and description). Both are objects, so two items with equal
 * fields are still different items, as with Java's default equality.
 */
module Entities {
  import opened Sequences

  datatype Option<T> = None | Some(value: T)

  /** An item lying in a room. A Java item may have a null name, modelled as None. */
  class Item {
    const name: Option<string>
    const count: int
    const description: string

    constructor (name: Option<string>, count: int, description: string)
      ensures this.name == name && this.count == count && this.description == description
    {
      this.name := name;
      this.count := count;
      this.description := description;
    }
  }

  /** A non-player character. A null description is modelled as None. */
  class Actor {
    const name: string
    const description: Option<string>

    constructor (name: string, description: Option<string>)
      ensures this.name == name && this.description == description
    {
      this.name := name;
      this.description := description;
    }
  }

  /** Every actor is filed under its own name, as Room.setActor files it. */
  ghost predicate KeyedByName(actors: map<string, Actor>)
  {
    forall n :: n in actors ==> actors[n].name == n
  }

  /** Under distinct names one finds distinct actors. */
  lemma KeyedValuesDistinct(actors: map<string, Actor>, order: seq<string>)
    requires KeyedByName(actors) && IsEnumeration(order, actors.Keys)
    ensures Distinct(ValuesInOrder(actors, order))
  {
    var r := ValuesInOrder(actors, order);
    forall i, j | 0 <= i < j < |r| ensures r[i] != r[j] {
      assert r[i].name == order[i] && r[j].name == order[j];
    }
  }
}
