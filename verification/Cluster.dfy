/** The objects of one namespace, as the API server keeps them. */
module Cluster {
  import opened Common
  import opened Histories
  import opened SpecifiedIPs

  datatype Gvk = Gvk(group: string, version: string, kind: string)

  /** The server identifies objects by group, kind and name; versions are views of the same object. */
  datatype Key = Key(group: string, kind: string, name: string)

  datatype Uid = Uid(n: nat)

  datatype Object = Object(
    gvk: Gvk, name: string, uid: Uid, created: int, owners: seq<OwnerRef>,
    annotations: StringMap, labels: StringMap, podIP: string, body: string)

  function KeyOf(o: Object): Key {
    Key(o.gvk.group, o.gvk.kind, o.name)
  }

  predicate IsPod(k: Key) {
    k.group == "" && k.kind == "Pod"
  }

  /** `next` is the first uid not yet given out; `now` the clock in seconds. */
  datatype Namespace = Namespace(objects: map<Key, Object>, next: nat, now: int)

  ghost predicate Valid(c: Namespace) {
    && (forall k | k in c.objects :: KeyOf(c.objects[k]) == k && c.objects[k].uid.n < c.next)
    && (forall j, k | j in c.objects && k in c.objects && c.objects[j].uid == c.objects[k].uid :: j == k)
  }

  // ---------- What requests do ----------

  /** A created object gets a uid and a creation time; only a kubelet gives a pod its address. */
  function Created(c: Namespace, o: Object): Namespace {
    c.(objects := c.objects[KeyOf(o) := o.(uid := Uid(c.next), created := c.now, podIP := "")], next := c.next + 1)
  }

  /** An update keeps identity, age and the status of the stored object. */
  function Updated(c: Namespace, o: Object): Namespace
    requires KeyOf(o) in c.objects
  {
    var stored := c.objects[KeyOf(o)];
    c.(objects := c.objects[KeyOf(o) := o.(uid := stored.uid, created := stored.created, podIP := stored.podIP)])
  }

  function Deleted(c: Namespace, ks: set<Key>): Namespace {
    c.(objects := c.objects - ks)
  }

  lemma RequestsKeepValid(c: Namespace, o: Object, ks: set<Key>)
    requires Valid(c)
    ensures KeyOf(o) !in c.objects ==> Valid(Created(c, o))
    ensures KeyOf(o) in c.objects ==> Valid(Updated(c, o))
    ensures Valid(Deleted(c, ks))
  {
  }

  class ApiCluster {
    var objects: map<Key, Object>
    var next: nat
    var now: int

    constructor (c: Namespace)
      ensures State() == c
    {
      objects, next, now := c.objects, c.next, c.now;
    }

    ghost function State(): Namespace
      reads this
    {
      Namespace(objects, next, now)
    }

    method Get(k: Key) returns (r: Option<Object>)
      ensures r == Lookup(objects, k)
    {
      r := if k in objects then Some(objects[k]) else None;
    }

    method Create(o: Object) returns (ok: bool)
      modifies this
      ensures ok <==> KeyOf(o) !in old(objects)
      ensures State() == if ok then Created(old(State()), o) else old(State())
    {
      ok := KeyOf(o) !in objects;
      if ok {
        objects := objects[KeyOf(o) := o.(uid := Uid(next), created := now, podIP := "")];
        next := next + 1;
      }
    }

    method Update(o: Object) returns (ok: bool)
      modifies this`objects
      ensures ok <==> KeyOf(o) in old(objects)
      ensures State() == if ok then Updated(old(State()), o) else old(State())
    {
      ok := KeyOf(o) in objects;
      if ok {
        var stored := objects[KeyOf(o)];
        objects := objects[KeyOf(o) := o.(uid := stored.uid, created := stored.created, podIP := stored.podIP)];
      }
    }

    /** Deleting what is not there is an error, which most callers ignore. */
    method Delete(k: Key) returns (found: bool)
      modifies this`objects
      ensures found <==> k in old(objects)
      ensures State() == Deleted(old(State()), {k})
    {
      found := k in objects;
      objects := objects - {k};
    }

    /** Deletion with a UID precondition: refused when the key now names another object. */
    method DeleteExact(k: Key, uid: Uid) returns (ok: bool)
      modifies this`objects
      ensures ok <==> k in old(objects) ==> old(objects)[k].uid == uid
      ensures State() == if ok then Deleted(old(State()), {k}) else old(State())
    {
      ok := k !in objects || objects[k].uid == uid;
      if ok {
        objects := objects - {k};
      }
    }

    /** The keys of the pods with a release label, each once. */
    method ListPods(release: string) returns (pods: seq<Key>)
      ensures Distinct(pods)
      ensures forall k :: k in pods <==> k in PodsOf(State(), release)
    {
      pods := [];
      var rest := objects.Keys;
      while rest != {}
        invariant rest <= objects.Keys && Distinct(pods)
        invariant forall k :: k in pods <==> k in PodsOf(State(), release) && k !in rest
        decreases rest
      {
        var k :| k in rest;
        rest := rest - {k};
        if IsPod(k) && SpecifiedIPs.Get(objects[k].labels, RELEASE_LABEL) == (release, true) {
          pods := pods + [k];
        }
      }
    }
  }

  ghost function PodsOf(c: Namespace, release: string): set<Key> {
    set k | k in c.objects && IsPod(k) && SpecifiedIPs.Get(c.objects[k].labels, RELEASE_LABEL) == (release, true)
  }
}
