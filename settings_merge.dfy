/**
 * The recursive merge of user settings into the default settings (merge_dicts in utils.py).
 * A settings dictionary is an association list of members in insertion order; the merge keeps
 * every default key in default order, followed by the keys only the user set, in user order.
 */
module SettingsMerge {
  import opened Optional

  /** A decoded settings value (JSON-like). */
  datatype Value =
    | Null
    | Bool(b: bool)
    | Number(n: real)
    | Str(s: string)
    | Arr(elems: seq<Value>)
    | Obj(members: seq<Member>)

  datatype Member = Member(key: string, value: Value)

  /** The keys of a dictionary, in order. */
  function Keys(ms: seq<Member>): (r: seq<string>)
    ensures |r| == |ms| && forall i :: 0 <= i < |ms| ==> r[i] == ms[i].key
  {
    seq(|ms|, i requires 0 <= i < |ms| => ms[i].key)
  }

  /** No key occurs twice, as in a dictionary. */
  ghost predicate UniqueKeys(ms: seq<Member>) {
    forall i, j :: 0 <= i < j < |ms| ==> ms[i].key != ms[j].key
  }

  /** The first position of `k` in `keys`. */
  function IndexOf(keys: seq<string>, k: string): (r: Option<nat>)
    ensures r.None? <==> k !in keys
    ensures r.Some? ==> r.value < |keys| && keys[r.value] == k && forall j :: 0 <= j < r.value ==> keys[j] != k
  {
    if keys == [] then None
    else if keys[0] == k then Some(0)
    else match IndexOf(keys[1..], k)
      case None => None
      case Some(j) => Some(j + 1)
  }

  /** `key in d` and `d[key]`: the value of the first member with key `k`. */
  function Lookup(ms: seq<Member>, k: string): (r: Option<Value>)
    ensures r.None? <==> k !in Keys(ms)
    ensures r.Some? ==> Member(k, r.value) in ms
  {
    match IndexOf(Keys(ms), k)
    case None => None
    case Some(p) => Some(ms[p].value)
  }

  /** The members of `user` whose key is not a key of `defaults`, in user order. */
  function UserOnly(user: seq<Member>, defaults: seq<Member>): (r: seq<Member>)
    ensures forall m :: m in r <==> m in user && m.key !in Keys(defaults)
  {
    if user == [] then []
    else (if user[0].key in Keys(defaults) then [] else [user[0]]) + UserOnly(user[1..], defaults)
  }

  /** The merge: every default member merged with the user's, then the user-only members. */
  function Merge(defaults: seq<Member>, user: seq<Member>): (r: seq<Member>)
    ensures |r| == |defaults| + |UserOnly(user, defaults)|
    ensures forall j :: 0 <= j < |defaults| ==> r[j] == MergeMember(defaults[j], user)
    ensures r[|defaults|..] == UserOnly(user, defaults)
    decreases Obj(defaults), |defaults| + 1
  {
    MergeFrom(defaults, user, 0) + UserOnly(user, defaults)
  }

  /** The merged members for the defaults from index `i` on. */
  function MergeFrom(defaults: seq<Member>, user: seq<Member>, i: nat): (r: seq<Member>)
    requires i <= |defaults|
    ensures |r| == |defaults| - i
    ensures forall j :: 0 <= j < |r| ==> r[j] == MergeMember(defaults[i + j], user)
    decreases Obj(defaults), |defaults| - i
  {
    if i == |defaults| then [] else [MergeMember(defaults[i], user)] + MergeFrom(defaults, user, i + 1)
  }

  /**
   * One default member: kept when the user lacks its key, merged recursively when both values
   * are dictionaries, and otherwise replaced by the user's value.
   */
  function MergeMember(m: Member, user: seq<Member>): (r: Member)
    ensures r.key == m.key
    decreases m, 0
  {
    match Lookup(user, m.key)
    case None => m
    case Some(v) =>
      if m.value.Obj? && v.Obj? then Member(m.key, Obj(Merge(m.value.members, v.members)))
      else Member(m.key, v)
  }

  /** The user-only part keeps the user's order: it distributes over concatenation. */
  lemma {:induction false} UserOnlyConcat(a: seq<Member>, b: seq<Member>, defaults: seq<Member>)
    ensures UserOnly(a + b, defaults) == UserOnly(a, defaults) + UserOnly(b, defaults)
  {
    if a != [] {
      assert (a + b)[1..] == a[1..] + b;
      UserOnlyConcat(a[1..], b, defaults);
    } else {
      assert a + b == b;
    }
  }

  /** Without default keys in the way, the user-only part is the whole user dictionary. */
  lemma {:induction false} UserOnlyDisjoint(user: seq<Member>, defaults: seq<Member>)
    requires forall i :: 0 <= i < |user| ==> user[i].key !in Keys(defaults)
    ensures UserOnly(user, defaults) == user
  {
    if user != [] {
      UserOnlyDisjoint(user[1..], defaults);
    }
  }

  /** The user-only part of a dictionary with unique keys has unique keys. */
  lemma {:induction false} UserOnlyUnique(user: seq<Member>, defaults: seq<Member>)
    requires UniqueKeys(user)
    ensures UniqueKeys(UserOnly(user, defaults))
  {
    if user != [] {
      UserOnlyUnique(user[1..], defaults);
      var rest := UserOnly(user[1..], defaults);
      forall m | m in rest
        ensures m.key != user[0].key
      {
        var i :| 0 < i < |user| && user[i] == m;
      }
    }
  }

  /** The lookup of a user-only key in the user-only part finds the user's value. */
  lemma {:induction false} LookupUserOnly(user: seq<Member>, defaults: seq<Member>, k: string)
    requires k !in Keys(defaults)
    ensures Lookup(UserOnly(user, defaults), k) == Lookup(user, k)
  {
    if user != [] {
      var head := if user[0].key in Keys(defaults) then [] else [user[0]];
      LookupConcat(head, UserOnly(user[1..], defaults), k);
      LookupCons(user, k);
      if user[0].key != k {
        LookupUserOnly(user[1..], defaults, k);
      } else {
        LookupCons(head, k);
      }
    }
  }

  /** Lookup examines the first member and otherwise the rest. */
  lemma LookupCons(ms: seq<Member>, k: string)
    requires ms != []
    ensures Lookup(ms, k) == if ms[0].key == k then Some(ms[0].value) else Lookup(ms[1..], k)
  {
  }

  /** Any position holding `k` with no `k` before it is the first position of `k`. */
  lemma IndexOfAt(keys: seq<string>, k: string, p: nat)
    requires p < |keys| && keys[p] == k
    requires forall j :: 0 <= j < p ==> keys[j] != k
    ensures IndexOf(keys, k) == Some(p)
  {
  }

  /** A key of the first part is found there; any other key is found in the second part. */
  lemma LookupConcat(a: seq<Member>, b: seq<Member>, k: string)
    ensures Lookup(a + b, k) == if k in Keys(a) then Lookup(a, k) else Lookup(b, k)
  {
    var ka, kb := Keys(a), Keys(b);
    assert Keys(a + b) == ka + kb;
    if k in ka {
      IndexOfAt(ka + kb, k, IndexOf(ka, k).value);
    } else if k in kb {
      var p := IndexOf(kb, k).value;
      forall j | 0 <= j < |ka| + p
        ensures (ka + kb)[j] != k
      {
        if j < |ka| {
          assert ka[j] in ka;
        }
      }
      IndexOfAt(ka + kb, k, |ka| + p);
    }
  }

  /** The merged keys are the default keys in default order, then the user-only keys in user order. */
  lemma MergeKeyOrder(defaults: seq<Member>, user: seq<Member>)
    ensures Keys(Merge(defaults, user)) == Keys(defaults) + Keys(UserOnly(user, defaults))
  {
  }

  /** The user-only keys are the user's keys that are not default keys. */
  lemma UserOnlyKeys(user: seq<Member>, defaults: seq<Member>, k: string)
    ensures k in Keys(UserOnly(user, defaults)) <==> k in Keys(user) && k !in Keys(defaults)
  {
    var u := UserOnly(user, defaults);
    if k in Keys(user) && k !in Keys(defaults) {
      var i :| 0 <= i < |user| && user[i].key == k;
      assert user[i] in u;
      var p :| 0 <= p < |u| && u[p] == user[i];
      assert Keys(u)[p] == k;
    }
    if k in Keys(u) {
      var i :| 0 <= i < |u| && u[i].key == k;
      assert u[i] in user;
    }
  }

  /** The merged key set is the union of the two key sets. */
  lemma MergeKeySet(defaults: seq<Member>, user: seq<Member>, k: string)
    ensures k in Keys(Merge(defaults, user)) <==> k in Keys(defaults) || k in Keys(user)
  {
    MergeKeyOrder(defaults, user);
    UserOnlyKeys(user, defaults, k);
  }

  /** Every key appears once when it appears once in each input. */
  lemma MergeUniqueKeys(defaults: seq<Member>, user: seq<Member>)
    requires UniqueKeys(defaults) && UniqueKeys(user)
    ensures UniqueKeys(Merge(defaults, user))
  {
    var front: seq<Member>, back: seq<Member> := MergeFrom(defaults, user, 0), UserOnly(user, defaults);
    UserOnlyUnique(user, defaults);
    forall i, j | 0 <= i < j < |front + back|
      ensures (front + back)[i].key != (front + back)[j].key
    {
      if j >= |front| && i < |front| {
        assert back[j - |front|] in back;
        assert (front + back)[i].key == Keys(defaults)[i];
      }
    }
  }

  /**
   * The value of every key in the merge: a default-only key keeps the default value, a
   * user-only key gets the user's value, a key both set to dictionaries gets the recursive
   * merge, and any other key both set gets the user's value.
   */
  lemma MergeLookup(defaults: seq<Member>, user: seq<Member>, k: string)
    ensures k in Keys(defaults) && k !in Keys(user) ==> Lookup(Merge(defaults, user), k) == Lookup(defaults, k)
    ensures k !in Keys(defaults) ==> Lookup(Merge(defaults, user), k) == Lookup(user, k)
    ensures k in Keys(defaults) && k in Keys(user) ==>
              var dv, uv := Lookup(defaults, k).value, Lookup(user, k).value;
              Lookup(Merge(defaults, user), k) == Some(if dv.Obj? && uv.Obj? then Obj(Merge(dv.members, uv.members)) else uv)
  {
    var front := MergeFrom(defaults, user, 0);
    LookupConcat(front, UserOnly(user, defaults), k);
    assert Keys(front) == Keys(defaults);
    if k in Keys(defaults) {
      var p := IndexOf(Keys(defaults), k).value;
      assert front[p] == MergeMember(defaults[p], user);
    } else {
      LookupUserOnly(user, defaults, k);
    }
  }

  /** Merging with empty user settings yields the defaults. */
  lemma MergeNoUser(defaults: seq<Member>)
    ensures Merge(defaults, []) == defaults
  {
  }

  /** Merging user settings into empty defaults yields the user settings. */
  lemma MergeNoDefaults(user: seq<Member>)
    ensures Merge([], user) == user
  {
    UserOnlyDisjoint(user, []);
  }
}
