/** Where processes are: every process that was launched is running, on the ready list, on one wait
    queue or in the grave; pids tell processes apart. */
module ProcessState {
  const PROCESS_MAX_PID: nat := 1024

  datatype State = CRADLE | READY | RUNNING | BLOCKED | GRAVE

  datatype Info = Info(state: State, pid: nat, ppid: nat, waitingFor: nat, exitcode: int, exitreason: int)

  /** The lists that processes are put on: queue 0 is the one on which parents wait for children. */
  datatype ListId = ReadyList | GraveList | Waiters(q: nat)

  const WATCHERS := Waiters(0)

  /** Where a process is: nowhere yet, running, or on a list. */
  datatype Place = Nowhere | Running | On(l: ListId)

  type Lists = map<ListId, seq<int>>

  function ListOf(lists: Lists, l: ListId): seq<int> {
    if l in lists then lists[l] else []
  }

  /** What is on list l is there once, and is nowhere else. */
  ghost predicate ListOk(lists: Lists, place: map<int, Place>, l: ListId) {
    && (forall i :: 0 <= i < |ListOf(lists, l)| ==> ListOf(lists, l)[i] in place && place[ListOf(lists, l)[i]] == On(l))
    && (forall i, j :: 0 <= i < j < |ListOf(lists, l)| ==> ListOf(lists, l)[i] != ListOf(lists, l)[j])
  }

  ghost predicate PlaceOk(current: int, lists: Lists, place: map<int, Place>, p: int) {
    p in place ==>
      && p != 0 && (place[p] == Running <==> p == current)
      && (place[p].On? ==> p in ListOf(lists, place[p].l))
  }

  /** Every process is where its place says, and only there. */
  ghost predicate Placed(current: int, lists: Lists, place: map<int, Place>) {
    && (forall l {:trigger ListOk(lists, place, l)} :: ListOk(lists, place, l))
    && (forall p {:trigger PlaceOk(current, lists, place, p)} :: PlaceOk(current, lists, place, p))
    && (current != 0 ==> current in place)
  }

  ghost predicate PidOk(info: map<int, Info>, table: seq<int>, p: int) {
    p in info ==> 1 <= info[p].pid < |table| && table[info[p].pid] == p
  }

  ghost predicate EntryOk(info: map<int, Info>, table: seq<int>, i: int) {
    0 <= i < |table| && table[i] != 0 ==> table[i] in info && info[table[i]].pid == i
  }

  /** The process table names each process under its pid, and nothing else. */
  ghost predicate Numbered(info: map<int, Info>, table: seq<int>) {
    && |table| == PROCESS_MAX_PID
    && (forall p {:trigger PidOk(info, table, p)} :: PidOk(info, table, p))
    && (forall i {:trigger EntryOk(info, table, i)} :: EntryOk(info, table, i))
  }

  /** Distinct processes have distinct pids. */
  lemma PidsDiffer(info: map<int, Info>, table: seq<int>, p: int, q: int)
    requires Numbered(info, table) && p in info && q in info && p != q
    ensures info[p].pid != info[q].pid
  {
    assert PidOk(info, table, p) && PidOk(info, table, q);
  }

  /** w waits for c: c is its child, and it waits for any child or for this one. */
  predicate Awaits(info: map<int, Info>, w: int, c: int) {
    w in info && c in info && info[w].pid == info[c].ppid
    && (info[w].waitingFor == 0 || info[w].waitingFor == info[c].pid)
  }

  /** No parent waits for a child that is in the grave. */
  ghost predicate NoneForgotten(lists: Lists, info: map<int, Info>) {
    forall w, c {:trigger Awaits(info, w, c)} ::
      w in ListOf(lists, WATCHERS) && c in ListOf(lists, GraveList) ==> !Awaits(info, w, c)
  }

  /** The state field says where a process is. */
  ghost predicate StateOk(info: map<int, Info>, place: map<int, Place>, p: int) {
    p in info && p in place ==>
      match place[p]
      case Nowhere => true
      case Running => info[p].state == RUNNING || info[p].state == READY
      case On(l) => info[p].state == StateOn(l)
  }

  ghost predicate Ok(current: int, lists: Lists, info: map<int, Info>, table: seq<int>, place: map<int, Place>) {
    && Placed(current, lists, place) && place.Keys == info.Keys && Numbered(info, table) && NoneForgotten(lists, info)
    && (forall p {:trigger StateOk(info, place, p)} :: StateOk(info, place, p))
  }

  /** A process that was launched is running or on a list. */
  lemma SomePlace(current: int, lists: Lists, info: map<int, Info>, table: seq<int>, place: map<int, Place>, p: int)
    requires Ok(current, lists, info, table, place) && p in info && p in place && place[p] != Nowhere
    ensures p == current || exists l {:trigger ListOf(lists, l)} :: p in ListOf(lists, l)
  {
    assert PlaceOk(current, lists, place, p);
  }

  /** It is in no second place: not running as well, not on another list, not on its list twice. */
  lemma OnePlace(current: int, lists: Lists, info: map<int, Info>, table: seq<int>, place: map<int, Place>, l: ListId,
                 i: nat, m: ListId, j: nat)
    requires Ok(current, lists, info, table, place) && i < |ListOf(lists, l)| && j < |ListOf(lists, m)|
    requires ListOf(lists, l)[i] == ListOf(lists, m)[j]
    ensures l == m && i == j && ListOf(lists, l)[i] != current
  {
    assert ListOk(lists, place, l) && ListOk(lists, place, m);
    assert PlaceOk(current, lists, place, ListOf(lists, l)[i]);
  }

  // ---- putting on a list and taking off

  function Push(lists: Lists, l: ListId, p: int): Lists {
    lists[l := ListOf(lists, l) + [p]]
  }

  function RemoveAt(lists: Lists, l: ListId, i: nat): Lists
    requires i < |ListOf(lists, l)|
  {
    lists[l := ListOf(lists, l)[..i] + ListOf(lists, l)[i + 1..]]
  }

  /** A process that is on no list goes to the tail of one. */
  lemma PushPlaced(current: int, lists: Lists, place: map<int, Place>, l: ListId, p: int)
    requires Placed(current, lists, place) && p in place && !place[p].On?
    ensures Placed(if p == current then 0 else current, Push(lists, l, p), place[p := On(l)])
  {
    var lists', place', current' := Push(lists, l, p), place[p := On(l)], if p == current then 0 else current;
    assert PlaceOk(current, lists, place, p);
    forall m ensures ListOk(lists', place', m) {
      assert ListOk(lists, place, m);
      assert ListOf(lists', m) == if m == l then ListOf(lists, m) + [p] else ListOf(lists, m);
    }
    forall q ensures PlaceOk(current', lists', place', q) { assert PlaceOk(current, lists, place, q); }
  }

  lemma WithoutOne(s: seq<int>, i: nat)
    requires i < |s| && forall k, j :: 0 <= k < j < |s| ==> s[k] != s[j]
    ensures var rest := s[..i] + s[i + 1..];
            && (forall k, j :: 0 <= k < j < |rest| ==> rest[k] != rest[j])
            && (forall x {:trigger x in rest} :: x in rest <==> x in s && x != s[i])
  {
    var rest := s[..i] + s[i + 1..];
    forall x | x in s && x != s[i] ensures x in rest {
      var j :| 0 <= j < |s| && s[j] == x;
      assert rest[if j < i then j else j - 1] == x;
    }
  }

  /** A process is taken off its list. */
  lemma RemovePlaced(current: int, lists: Lists, place: map<int, Place>, l: ListId, i: nat)
    requires Placed(current, lists, place) && i < |ListOf(lists, l)|
    ensures ListOf(lists, l)[i] in place && place[ListOf(lists, l)[i]] == On(l)
    ensures Placed(current, RemoveAt(lists, l, i), place[ListOf(lists, l)[i] := Nowhere])
  {
    var p := ListOf(lists, l)[i];
    var lists', place' := RemoveAt(lists, l, i), place[p := Nowhere];
    assert ListOk(lists, place, l) && PlaceOk(current, lists, place, p);
    WithoutOne(ListOf(lists, l), i);
    forall m ensures ListOk(lists', place', m) { RemoveListOk(lists, place, l, i, m); }
    forall q ensures PlaceOk(current, lists', place', q) { assert PlaceOk(current, lists, place, q); }
  }

  lemma RemoveListOk(lists: Lists, place: map<int, Place>, l: ListId, i: nat, m: ListId)
    requires ListOk(lists, place, l) && ListOk(lists, place, m) && i < |ListOf(lists, l)|
    ensures ListOk(RemoveAt(lists, l, i), place[ListOf(lists, l)[i] := Nowhere], m)
  {
    WithoutOne(ListOf(lists, l), i);
    var lists' := RemoveAt(lists, l, i);
    if m == l {
      forall j | 0 <= j < |ListOf(lists', m)|
        ensures ListOf(lists', m)[j] in ListOf(lists, l) && ListOf(lists', m)[j] != ListOf(lists, l)[i] {
        assert ListOf(lists', m)[j] in ListOf(lists', m);
      }
    } else {
      assert ListOf(lists', m) == ListOf(lists, m);
    }
  }

  /** A process that is on no list runs. */
  lemma RunPlaced(lists: Lists, place: map<int, Place>, p: int)
    requires Placed(0, lists, place) && p in place && place[p] == Nowhere && p != 0
    ensures Placed(p, lists, place[p := Running])
  {
    var place' := place[p := Running];
    forall m ensures ListOk(lists, place', m) { assert ListOk(lists, place, m); }
    forall q ensures PlaceOk(p, lists, place', q) { assert PlaceOk(0, lists, place, q); }
  }

  // ---- the whole invariant

  function StateOn(l: ListId): State {
    match l
    case ReadyList => READY
    case GraveList => GRAVE
    case Waiters(_) => BLOCKED
  }

  lemma SameNumbers(info: map<int, Info>, table: seq<int>, p: int, x: Info)
    requires Numbered(info, table) && p in info && x.pid == info[p].pid
    ensures Numbered(info[p := x], table)
  {
    var info' := info[p := x];
    forall q ensures PidOk(info', table, q) { assert PidOk(info, table, q); }
    forall i ensures EntryOk(info', table, i) { assert EntryOk(info, table, i); }
  }

  /** A process that is on no list goes to the tail of list l, with a new description. */
  lemma Enlist(current: int, lists: Lists, info: map<int, Info>, table: seq<int>, place: map<int, Place>, l: ListId,
               p: int, x: Info)
    requires Ok(current, lists, info, table, place) && p in place && !place[p].On?
    requires x.pid == info[p].pid && x.state == StateOn(l) && NoneForgotten(Push(lists, l, p), info[p := x])
    ensures Ok(if p == current then 0 else current, Push(lists, l, p), info[p := x], table, place[p := On(l)])
  {
    PushPlaced(current, lists, place, l, p);
    assert p in info.Keys;
    SameNumbers(info, table, p, x);
    var info', place' := info[p := x], place[p := On(l)];
    forall q ensures StateOk(info', place', q) { assert StateOk(info, place, q); }
  }

  /** A process is taken off list l, with a new description. */
  lemma Delist(current: int, lists: Lists, info: map<int, Info>, table: seq<int>, place: map<int, Place>, l: ListId,
               i: nat, x: Info)
    requires Ok(current, lists, info, table, place) && i < |ListOf(lists, l)|
    ensures ListOf(lists, l)[i] in place && place[ListOf(lists, l)[i]] == On(l) && ListOf(lists, l)[i] in info
    ensures var p := ListOf(lists, l)[i];
            x.pid == info[p].pid && NoneForgotten(RemoveAt(lists, l, i), info[p := x]) ==>
              Ok(current, RemoveAt(lists, l, i), info[p := x], table, place[p := Nowhere])
  {
    var p := ListOf(lists, l)[i];
    RemovePlaced(current, lists, place, l, i);
    assert p in place.Keys;
    if x.pid == info[p].pid && NoneForgotten(RemoveAt(lists, l, i), info[p := x]) {
      SameNumbers(info, table, p, x);
      var info', place' := info[p := x], place[p := Nowhere];
      forall q ensures StateOk(info', place', q) { assert StateOk(info, place, q); }
    }
  }

  /** Nobody is forgotten when fewer wait or lie in the grave, each described as before. */
  lemma FewerForgotten(lists: Lists, lists': Lists, info: map<int, Info>, info': map<int, Info>)
    requires NoneForgotten(lists, info)
    requires forall w ::
               w in ListOf(lists', WATCHERS) ==>
                 w in ListOf(lists, WATCHERS)
                 && (w in info' ==>
                       w in info && info'[w].pid == info[w].pid && info'[w].waitingFor == info[w].waitingFor)
    requires forall c ::
               c in ListOf(lists', GraveList) ==>
                 c in ListOf(lists, GraveList)
                 && (c in info' ==> c in info && info'[c].pid == info[c].pid && info'[c].ppid == info[c].ppid)
    ensures NoneForgotten(lists', info')
  {
    forall w, c | w in ListOf(lists', WATCHERS) && c in ListOf(lists', GraveList) ensures !Awaits(info', w, c) {
      assert !Awaits(info, w, c);
    }
  }

  /** Who is on a list is not on another. */
  lemma Elsewhere(current: int, lists: Lists, place: map<int, Place>, l: ListId, i: nat, m: ListId)
    requires Placed(current, lists, place) && i < |ListOf(lists, l)|
    ensures l != m ==> ListOf(lists, l)[i] !in ListOf(lists, m)
    ensures ListOf(lists, l)[i] !in ListOf(lists, l)[..i] + ListOf(lists, l)[i + 1..]
  {
    assert ListOk(lists, place, l) && ListOk(lists, place, m);
  }
}
