/** The favourites store: a reducer over a list of `{product, quantity}` entries
    with an add and a remove action, the initial value read from storage, and
    the provider that holds the list, flushes it to storage after each change
    and exposes its count. */
module Favourites {
  import opened Wrappers
  import opened Products
  import opened Sequences

  /** One favourites entry. */
  datatype FavouriteEntry = FavouriteEntry(product: Product, quantity: int)

  /** The reducer's actions. Removal carries the identity string to remove. */
  datatype Action = AddToFavourite(product: Product) | RemoveFromFavourite(identity: string)

  function EntryIdentity(e: FavouriteEntry): string
  {
    Identity(e.product)
  }

  /** Some entry of `s` has identity `id`. */
  predicate HasIdentity(s: seq<FavouriteEntry>, id: string)
  {
    exists i :: 0 <= i < |s| && EntryIdentity(s[i]) == id
  }

  /** The identities that occur in `s`. */
  function Identities(s: seq<FavouriteEntry>): set<string>
  {
    set i | 0 <= i < |s| :: EntryIdentity(s[i])
  }

  /** With pairwise distinct identities, the list has one entry per identity. */
  lemma {:induction false} UniqueCount(s: seq<FavouriteEntry>)
    requires UniqueIdentities(s)
    ensures |Identities(s)| == |s|
  {
    if s != [] {
      var t := s[1..];
      assert UniqueIdentities(t) by {
        forall i, j | 0 <= i < j < |t| ensures EntryIdentity(t[i]) != EntryIdentity(t[j]) {
          assert t[i] == s[i + 1] && t[j] == s[j + 1];
        }
      }
      UniqueCount(t);
      assert Identities(s) == {EntryIdentity(s[0])} + Identities(t) by {
        forall x | x in Identities(s) ensures x in {EntryIdentity(s[0])} + Identities(t) {
          var i :| 0 <= i < |s| && EntryIdentity(s[i]) == x;
          if i > 0 { assert t[i - 1] == s[i]; }
        }
        forall x | x in Identities(t) ensures x in Identities(s) {
          var i :| 0 <= i < |t| && EntryIdentity(t[i]) == x;
          assert s[i + 1] == t[i];
        }
      }
      assert EntryIdentity(s[0]) !in Identities(t) by {
        forall i | 0 <= i < |t| ensures EntryIdentity(t[i]) != EntryIdentity(s[0]) {
          assert t[i] == s[i + 1];
        }
      }
    }
  }

  /** No two entries of `s` share an identity. */
  predicate UniqueIdentities(s: seq<FavouriteEntry>)
  {
    forall i, j :: 0 <= i < j < |s| ==> EntryIdentity(s[i]) != EntryIdentity(s[j])
  }

  /** `state.find(...)`: the first entry whose identity is `id`, if any. */
  function FindByIdentity(s: seq<FavouriteEntry>, id: string): (r: Option<FavouriteEntry>)
    ensures r.None? <==> !HasIdentity(s, id)
    ensures r.Some? ==> exists i :: 0 <= i < |s| && s[i] == r.value && EntryIdentity(s[i]) == id
                                    && forall j :: 0 <= j < i ==> EntryIdentity(s[j]) != id
  {
    if s == [] then None
    else if EntryIdentity(s[0]) == id then Some(s[0])
    else
      var r := FindByIdentity(s[1..], id);
      assert forall i :: 0 < i < |s| ==> s[i] == s[1..][i - 1];
      assert HasIdentity(s, id) ==> HasIdentity(s[1..], id);
      r
  }

  /** `state.filter(...)`: the entries whose identity is not `id`, in order. */
  function Without(s: seq<FavouriteEntry>, id: string): (r: seq<FavouriteEntry>)
    ensures forall i :: 0 <= i < |r| ==> EntryIdentity(r[i]) != id
    ensures !HasIdentity(s, id) ==> r == s
    ensures |r| <= |s|
  {
    if s == [] then []
    else
      var rest := Without(s[1..], id);
      assert !HasIdentity(s, id) ==> !HasIdentity(s[1..], id) by {
        if !HasIdentity(s, id) {
          forall i | 0 <= i < |s[1..]| ensures EntryIdentity(s[1..][i]) != id {
            assert s[1..][i] == s[i + 1];
          }
        }
      }
      assert s == [s[0]] + s[1..];
      if EntryIdentity(s[0]) == id then rest else [s[0]] + rest
  }

  /** Removal keeps an entry exactly when it is in the list with another identity. */
  lemma {:induction false} WithoutMembers(s: seq<FavouriteEntry>, id: string, e: FavouriteEntry)
    ensures e in Without(s, id) <==> e in s && EntryIdentity(e) != id
  {
    if s != [] {
      WithoutMembers(s[1..], id, e);
      assert s == [s[0]] + s[1..];
    }
  }

  /** The reducer. */
  function Reduce(state: seq<FavouriteEntry>, action: Action): (r: seq<FavouriteEntry>)
    ensures action.AddToFavourite? ==> |state| <= |r| <= |state| + 1 && r[..|state|] == state
    ensures action.AddToFavourite? ==> HasIdentity(r, Identity(action.product))
    ensures action.RemoveFromFavourite? ==> |r| <= |state| && !HasIdentity(r, action.identity)
  {
    match action
    case AddToFavourite(p) =>
      if FindByIdentity(state, Identity(p)).None? then
        assert (state + [FavouriteEntry(p, 1)])[|state|] == FavouriteEntry(p, 1);
        state + [FavouriteEntry(p, 1)]
      else state
    case RemoveFromFavourite(id) =>
      Without(state, id)
  }

  // ---------------------------------------------------------------------------
  // Add
  // ---------------------------------------------------------------------------

  /** Adding a product whose identity is new appends it with quantity 1. */
  lemma AddAbsentAppends(s: seq<FavouriteEntry>, p: Product)
    requires !HasIdentity(s, Identity(p))
    ensures Reduce(s, AddToFavourite(p)) == s + [FavouriteEntry(p, 1)]
  {
  }

  /** Adding a product whose identity is already present changes nothing. */
  lemma AddPresentUnchanged(s: seq<FavouriteEntry>, p: Product)
    requires HasIdentity(s, Identity(p))
    ensures Reduce(s, AddToFavourite(p)) == s
  {
  }

  /** Adding grows the list by one exactly when the identity is new. */
  lemma AddLength(s: seq<FavouriteEntry>, p: Product)
    ensures |Reduce(s, AddToFavourite(p))| == |s| + (if HasIdentity(s, Identity(p)) then 0 else 1)
  {
  }

  /** After adding, the product's identity is present. */
  lemma AddMakesPresent(s: seq<FavouriteEntry>, p: Product)
    ensures HasIdentity(Reduce(s, AddToFavourite(p)), Identity(p))
  {
    var r := Reduce(s, AddToFavourite(p));
    if !HasIdentity(s, Identity(p)) {
      assert EntryIdentity(r[|s|]) == Identity(p);
    }
  }

  /** Adding the same product twice is adding it once. */
  lemma AddIdempotent(s: seq<FavouriteEntry>, p: Product)
    ensures Reduce(Reduce(s, AddToFavourite(p)), AddToFavourite(p)) == Reduce(s, AddToFavourite(p))
  {
    AddMakesPresent(s, p);
  }

  /** Adding keeps identities unique. */
  lemma AddPreservesUnique(s: seq<FavouriteEntry>, p: Product)
    requires UniqueIdentities(s)
    ensures UniqueIdentities(Reduce(s, AddToFavourite(p)))
  {
  }

  // ---------------------------------------------------------------------------
  // Remove
  // ---------------------------------------------------------------------------

  /** Removal distributes over concatenation, so it keeps the order of what it keeps. */
  lemma {:induction false} WithoutConcat(a: seq<FavouriteEntry>, b: seq<FavouriteEntry>, id: string)
    ensures Without(a + b, id) == Without(a, id) + Without(b, id)
  {
    if a == [] {
      assert a + b == b;
    } else {
      var ab := a + b;
      assert ab[0] == a[0];
      assert ab[1..] == a[1..] + b;
      WithoutConcat(a[1..], b, id);
      var ra, rb := Without(a[1..], id), Without(b, id);
      assert Without(ab[1..], id) == ra + rb;
      if EntryIdentity(a[0]) == id {
        assert Without(ab, id) == ra + rb;
        assert Without(a, id) == ra;
      } else {
        assert Without(ab, id) == [a[0]] + (ra + rb);
        assert Without(a, id) == [a[0]] + ra;
        ConcatAssoc([a[0]], ra, rb);
      }
    }
  }

  /** Removal of one entry keeps it exactly when its identity differs. */
  lemma WithoutSingleton(e: FavouriteEntry, id: string)
    ensures Without([e], id) == if EntryIdentity(e) == id then [] else [e]
  {
    assert [e][1..] == [];
  }

  /** Removing an identity that is absent changes nothing. */
  lemma RemoveAbsentUnchanged(s: seq<FavouriteEntry>, id: string)
    requires !HasIdentity(s, id)
    ensures Reduce(s, RemoveFromFavourite(id)) == s
  {
  }

  /** After removing, the identity is absent. */
  lemma RemoveMakesAbsent(s: seq<FavouriteEntry>, id: string)
    ensures !HasIdentity(Reduce(s, RemoveFromFavourite(id)), id)
  {
  }

  /** Removing keeps identities unique. */
  lemma {:induction false} RemovePreservesUnique(s: seq<FavouriteEntry>, id: string)
    requires UniqueIdentities(s)
    ensures UniqueIdentities(Reduce(s, RemoveFromFavourite(id)))
  {
    if s != [] {
      var tail := s[1..];
      assert UniqueIdentities(tail) by {
        forall i, j | 0 <= i < j < |tail| ensures EntryIdentity(tail[i]) != EntryIdentity(tail[j]) {
          assert tail[i] == s[i + 1] && tail[j] == s[j + 1];
        }
      }
      RemovePreservesUnique(tail, id);
      var rest := Without(tail, id);
      if EntryIdentity(s[0]) != id {
        var r := [s[0]] + rest;
        forall i, j | 0 <= i < j < |r| ensures EntryIdentity(r[i]) != EntryIdentity(r[j]) {
          if i == 0 {
            assert r[j] == rest[j - 1];
            WithoutMembers(tail, id, rest[j - 1]);
            assert rest[j - 1] in tail;
            var k :| 0 <= k < |tail| && tail[k] == rest[j - 1];
            assert tail[k] == s[k + 1];
          } else {
            assert r[i] == rest[i - 1] && r[j] == rest[j - 1];
          }
        }
      }
    }
  }

  /** In a list with unique identities, removing a present identity drops exactly one entry. */
  lemma {:induction false} RemovePresentLength(s: seq<FavouriteEntry>, id: string)
    requires UniqueIdentities(s)
    requires HasIdentity(s, id)
    ensures |Reduce(s, RemoveFromFavourite(id))| == |s| - 1
  {
    var k :| 0 <= k < |s| && EntryIdentity(s[k]) == id;
    var before, after := s[..k], s[k + 1..];
    assert s == before + [s[k]] + after;
    assert !HasIdentity(before, id) by {
      forall i | 0 <= i < |before| ensures EntryIdentity(before[i]) != id {
        assert before[i] == s[i];
      }
    }
    assert !HasIdentity(after, id) by {
      forall i | 0 <= i < |after| ensures EntryIdentity(after[i]) != id {
        assert after[i] == s[k + 1 + i];
      }
    }
    WithoutConcat(before + [s[k]], after, id);
    WithoutConcat(before, [s[k]], id);
    WithoutSingleton(s[k], id);
    calc {
      |Without(s, id)|;
      |Without(before + [s[k]], id)| + |Without(after, id)|;
      |Without(before, id)| + |Without([s[k]], id)| + |after|;
      |before| + |after|;
    }
  }

  /** Adding a product that was absent and then removing its identity restores the list. */
  lemma AddThenRemoveRestores(s: seq<FavouriteEntry>, p: Product)
    requires !HasIdentity(s, Identity(p))
    ensures Reduce(Reduce(s, AddToFavourite(p)), RemoveFromFavourite(Identity(p))) == s
  {
    WithoutConcat(s, [FavouriteEntry(p, 1)], Identity(p));
    WithoutSingleton(FavouriteEntry(p, 1), Identity(p));
  }

  /** Both actions keep identities unique. */
  lemma ReducePreservesUnique(s: seq<FavouriteEntry>, a: Action)
    requires UniqueIdentities(s)
    ensures UniqueIdentities(Reduce(s, a))
  {
    match a
    case AddToFavourite(p) => AddPreservesUnique(s, p);
    case RemoveFromFavourite(id) => RemovePreservesUnique(s, id);
  }

  // ---------------------------------------------------------------------------
  // Initial value
  // ---------------------------------------------------------------------------

  /** What `JSON.parse` makes of the stored text. */
  datatype ParseOutcome = Parsed(entries: seq<FavouriteEntry>) | SyntaxError

  const StorageKey: string := "favourite"
  const InvalidStorageMessage: string := "Invalid JSON data in localStorage for \"favourite\""

  /** The list the provider starts from, given what storage holds under
      `StorageKey` (`None` when the key is absent) and a parser. */
  function InitialValue(stored: Option<string>, parse: string -> ParseOutcome): (r: Result<seq<FavouriteEntry>, string>)
    ensures stored == None || stored == Some("") ==> r == Success([])
    ensures stored.Some? && stored.value != "" ==>
              (r.Failure? <==> parse(stored.value).SyntaxError?)
    ensures stored.Some? && stored.value != "" && r.Success? ==> r.value == parse(stored.value).entries
    ensures r.Failure? ==> r.error == InvalidStorageMessage
  {
    if stored.None? || stored.value == "" then Success([])
    else
      match parse(stored.value)
      case Parsed(entries) => Success(entries)
      case SyntaxError => Failure(InvalidStorageMessage)
  }

  // ---------------------------------------------------------------------------
  // Provider
  // ---------------------------------------------------------------------------

  /** The provider's state: the current list and the copy last written to storage. */
  class FavouriteStore {
    var favourites: seq<FavouriteEntry>
    var persisted: seq<FavouriteEntry>

    /** Storage holds the current list. */
    ghost predicate Valid()
      reads this
    {
      persisted == favourites
    }

    /** `favouritesCount`. */
    function FavouritesCount(): (n: nat)
      reads this
      ensures n == 0 <==> favourites == []
      ensures UniqueIdentities(favourites) ==> n == |Identities(favourites)|
    {
      if UniqueIdentities(favourites) then UniqueCount(favourites); |favourites|
      else |favourites|
    }

    /** Mounting with the initial value read from storage; the effect writes it
        back. A stored value that does not parse throws before the provider can
        mount. */
    constructor (stored: Option<string>, parse: string -> ParseOutcome)
      requires InitialValue(stored, parse).Success?
      ensures Valid()
      ensures favourites == InitialValue(stored, parse).value
      ensures stored == None || stored == Some("") ==> favourites == []
    {
      favourites := InitialValue(stored, parse).value;
      persisted := favourites;
    }

    /** `addToFavourite(product)`. */
    method AddToFavourite(p: Product)
      requires Valid()
      modifies this
      ensures Valid()
      ensures favourites == Reduce(old(favourites), Action.AddToFavourite(p))
      ensures FavouritesCount() == old(FavouritesCount()) + (if old(HasIdentity(favourites, Identity(p))) then 0 else 1)
      ensures HasIdentity(favourites, Identity(p))
      ensures old(UniqueIdentities(favourites)) ==> UniqueIdentities(favourites)
    {
      AddLength(favourites, p);
      AddMakesPresent(favourites, p);
      if UniqueIdentities(favourites) {
        AddPreservesUnique(favourites, p);
      }
      favourites := Reduce(favourites, Action.AddToFavourite(p));
      persisted := favourites;
    }

    /** `removeFromFavourite(product)`: dispatches the product's identity string. */
    method RemoveFromFavourite(p: Product)
      requires Valid()
      modifies this
      ensures Valid()
      ensures favourites == Reduce(old(favourites), Action.RemoveFromFavourite(Identity(p)))
      ensures !HasIdentity(favourites, Identity(p))
      ensures old(UniqueIdentities(favourites) && HasIdentity(favourites, Identity(p))) ==>
                FavouritesCount() == old(FavouritesCount()) - 1
      ensures old(!HasIdentity(favourites, Identity(p))) ==> favourites == old(favourites)
      ensures old(UniqueIdentities(favourites)) ==> UniqueIdentities(favourites)
    {
      if UniqueIdentities(favourites) {
        RemovePreservesUnique(favourites, Identity(p));
        if HasIdentity(favourites, Identity(p)) {
          RemovePresentLength(favourites, Identity(p));
        }
      }
      favourites := Reduce(favourites, Action.RemoveFromFavourite(Identity(p)));
      persisted := favourites;
    }
  }
}
