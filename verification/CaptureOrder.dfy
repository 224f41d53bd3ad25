/** The stable order in which a pass takes the pods it selects
    (operator/internal/controller/packetcapture_controller.go). */
module CaptureOrder {
  datatype Key = Key(namespace: string, name: string)

  predicate TextLess(a: string, b: string) {
    b != "" && (a == "" || a[0] < b[0] || (a[0] == b[0] && TextLess(a[1..], b[1..])))
  }

  predicate Less(a: Key, b: Key) {
    if a.namespace != b.namespace then TextLess(a.namespace, b.namespace) else TextLess(a.name, b.name)
  }

  lemma {:induction false} TextOrder(a: string, b: string)
    ensures a == b || TextLess(a, b) || TextLess(b, a)
    ensures TextLess(a, b) ==> a != b && !TextLess(b, a)
  {
    if a != "" && b != "" {
      TextOrder(a[1..], b[1..]);
      assert a == [a[0]] + a[1..] && b == [b[0]] + b[1..];
    }
  }

  lemma {:induction false} TextTransitive(a: string, b: string, c: string)
    requires TextLess(a, b) && TextLess(b, c)
    ensures TextLess(a, c)
  {
    if a != "" && a[0] == b[0] == c[0] {
      TextTransitive(a[1..], b[1..], c[1..]);
    }
  }

  lemma KeyOrder(a: Key, b: Key)
    ensures a == b || Less(a, b) || Less(b, a)
    ensures Less(a, b) ==> a != b && !Less(b, a)
  {
    TextOrder(a.namespace, b.namespace);
    TextOrder(a.name, b.name);
  }

  lemma KeyTransitive(a: Key, b: Key, c: Key)
    requires Less(a, b) && Less(b, c)
    ensures Less(a, c)
  {
    TextOrder(a.namespace, b.namespace);
    TextOrder(b.namespace, c.namespace);
    if a.namespace == b.namespace == c.namespace {
      TextTransitive(a.name, b.name, c.name);
    } else if a.namespace != b.namespace && b.namespace != c.namespace {
      TextTransitive(a.namespace, b.namespace, c.namespace);
      TextOrder(a.namespace, c.namespace);
    }
  }

  ghost predicate InOrder(keys: seq<Key>) {
    forall i, j :: 0 <= i < j < |keys| ==> Less(keys[i], keys[j])
  }

  /** The keys of a set, in order. */
  ghost predicate Lists(keys: seq<Key>, all: set<Key>) {
    InOrder(keys) && forall k :: k in keys <==> k in all
  }

  /** How one key comes into keys already in order. */
  function Insert(keys: seq<Key>, k: Key): seq<Key> {
    if keys == [] then [k]
    else if Less(keys[|keys| - 1], k) then keys + [k]
    else Insert(keys[..|keys| - 1], k) + [keys[|keys| - 1]]
  }

  lemma {:induction false} InsertOk(keys: seq<Key>, k: Key)
    requires InOrder(keys) && k !in keys
    ensures InOrder(Insert(keys, k))
    ensures forall x :: x in Insert(keys, k) <==> x in keys || x == k
  {
    if keys != [] {
      var last, init := keys[|keys| - 1], keys[..|keys| - 1];
      assert keys == init + [last];
      KeyOrder(last, k);
      if Less(last, k) {
        forall i | 0 <= i < |keys| ensures Less(keys[i], k) {
          if i < |keys| - 1 {
            KeyTransitive(keys[i], last, k);
          }
        }
      } else {
        InsertOk(init, k);
        assert forall x :: x in init ==> Less(x, last);
      }
    }
  }

  /** Listing a set in order can be done in one way only. */
  lemma {:induction false} ListsOnce(a: seq<Key>, b: seq<Key>, all: set<Key>)
    requires Lists(a, all) && Lists(b, all)
    ensures a == b
    decreases |a|
  {
    assert a == [] || a[0] in b;
    assert b == [] || b[0] in a;
    if a != [] {
      SmallestFirst(a, b, all);
      forall k ensures k in a[1..] <==> k in all - {a[0]} {
        TailMembers(a, k);
      }
      forall k ensures k in b[1..] <==> k in all - {a[0]} {
        TailMembers(b, k);
      }
      ListsOnce(a[1..], b[1..], all - {a[0]});
      assert a == [a[0]] + a[1..] && b == [b[0]] + b[1..];
    }
  }

  lemma TailMembers(a: seq<Key>, k: Key)
    requires InOrder(a) && a != []
    ensures k in a[1..] <==> k in a && k != a[0]
  {
    assert a == [a[0]] + a[1..];
    forall i | 1 <= i < |a| ensures a[i] != a[0] {
      KeyOrder(a[0], a[i]);
    }
  }

  lemma SmallestFirst(a: seq<Key>, b: seq<Key>, all: set<Key>)
    requires Lists(a, all) && Lists(b, all) && a != [] && b != []
    ensures a[0] == b[0]
  {
    assert a[0] in b && b[0] in a;
    var i :| 0 <= i < |b| && b[i] == a[0];
    var j :| 0 <= j < |a| && a[j] == b[0];
    KeyOrder(a[0], b[0]);
  }

  /** Any set can be listed. */
  ghost function Listing(all: set<Key>): (keys: seq<Key>)
    ensures Lists(keys, all)
  {
    if all == {} then []
    else
      var k :| k in all;
      var rest := Listing(all - {k});
      InsertOk(rest, k);
      Insert(rest, k)
  }

  lemma ListingHasNoRepeats(all: set<Key>)
    ensures forall i, j :: 0 <= i < j < |Listing(all)| ==> Listing(all)[i] != Listing(all)[j]
  {
    var keys := Listing(all);
    forall i, j | 0 <= i < j < |keys| ensures keys[i] != keys[j] {
      KeyOrder(keys[i], keys[j]);
    }
  }
}
