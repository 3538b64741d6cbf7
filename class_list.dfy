/** An element's `classList`, modelled as the set of its class names.
    `add`, `remove` and `toggle` are the DOM's own operations on it. */
module ClassList {

  /** The class names an element carries. */
  type ClassSet = set<string>

  /** `classList.add(name)`: adding a class that is already present changes nothing. */
  function Add(c: ClassSet, name: string): (r: ClassSet)
    ensures forall x :: x in r <==> x in c || x == name
  {
    c + {name}
  }

  /** `classList.remove(name)`: removing an absent class changes nothing. */
  function Remove(c: ClassSet, name: string): (r: ClassSet)
    ensures forall x :: x in r <==> x in c && x != name
  {
    c - {name}
  }

  /** `classList.toggle(name)`: removes the class when present, adds it otherwise. */
  function Toggle(c: ClassSet, name: string): (r: ClassSet)
    ensures name in r <==> name !in c
    ensures r - {name} == c - {name}
  {
    if name in c then Remove(c, name) else Add(c, name)
  }

  /** Toggling the same class twice gives back the original class list. */
  lemma ToggleTwice(c: ClassSet, name: string)
    ensures Toggle(Toggle(c, name), name) == c
  {
  }
}
