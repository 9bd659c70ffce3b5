/**
 The dashboard's incident lists: the incidents that are active and the most recent ones, both kept
 newest first and cut to fifty entries, fed by a snapshot and a stream of messages.
 */
module IncidentLists {
  import opened Common

  const MAX_HEALING_EVENTS := 50
  const PREFIX := "healing."
  const SUFFIX := ".resolved"

  datatype Status = Active | Resolved
  datatype Severity = Info | Warning | Critical

  datatype Message = Message(eventType: string, id: string, severity: Severity, source: string, status: Status, timestamp: string)

  datatype Incident = Incident(id: string, eventType: string, severity: Severity, source: string, status: Status,
                               createdAt: string, resolvedAt: Option<string>)

  datatype Event =
    | Loaded(active: seq<Incident>, recent: seq<Incident>)  // a snapshot arrives
    | Heard(message: Message)                               // a message arrives

  datatype Lists = Lists(active: seq<Incident>, recent: seq<Incident>)

  // ---------------------------------------------------------------------------
  // The reducers
  // ---------------------------------------------------------------------------

  function WithoutPrefix(s: string): string {
    if PREFIX <= s then s[|PREFIX|..] else s
  }

  function WithoutSuffix(s: string): string {
    if |s| >= |SUFFIX| && s[|s| - |SUFFIX|..] == SUFFIX then s[..|s| - |SUFFIX|] else s
  }

  function ToIncident(m: Message): Incident {
    Incident(m.id, WithoutSuffix(WithoutPrefix(m.eventType)), m.severity, m.source, m.status, m.timestamp,
             if m.status.Resolved? then Some(m.timestamp) else None)
  }

  /** The entries of the list with other ids. */
  function Without(list: seq<Incident>, id: string): seq<Incident> {
    if list == [] then []
    else if list[0].id == id then Without(list[1..], id)
    else [list[0]] + Without(list[1..], id)
  }

  function PutFirst(list: seq<Incident>, e: Incident): seq<Incident> {
    [e] + Without(list, e.id)
  }

  function Cut(list: seq<Incident>): seq<Incident> {
    if |list| <= MAX_HEALING_EVENTS then list else list[..MAX_HEALING_EVENTS]
  }

  function Apply(l: Lists, e: Event): Lists {
    match e
    case Loaded(active, recent) => Lists(active, recent)
    case Heard(m) =>
      var incident := ToIncident(m);
      Lists(if m.status.Resolved? then Without(l.active, m.id) else Cut(PutFirst(l.active, incident)),
            Cut(PutFirst(l.recent, incident)))
  }

  /** What the dashboard shows after the events. */
  function Shown(es: seq<Event>): Lists {
    if es == [] then Lists([], []) else Apply(Shown(es[..|es| - 1]), es[|es| - 1])
  }

  // ---------------------------------------------------------------------------
  // The same lists, never cut
  // ---------------------------------------------------------------------------

  function ApplyUncut(l: Lists, e: Event): Lists {
    match e
    case Loaded(active, recent) => Lists(active, recent)
    case Heard(m) =>
      var incident := ToIncident(m);
      Lists(if m.status.Resolved? then Without(l.active, m.id) else PutFirst(l.active, incident),
            PutFirst(l.recent, incident))
  }

  function Uncut(es: seq<Event>): Lists {
    if es == [] then Lists([], []) else ApplyUncut(Uncut(es[..|es| - 1]), es[|es| - 1])
  }

  predicate HasId(list: seq<Incident>, id: string) {
    exists k :: 0 <= k < |list| && list[k].id == id
  }

  predicate Distinct(list: seq<Incident>) {
    forall i, j :: 0 <= i < j < |list| ==> list[i].id != list[j].id
  }

  /** A snapshot lists each incident once, and at most fifty recent ones; it may list more active ones. */
  predicate Proper(e: Event) {
    match e
    case Loaded(active, recent) => Distinct(active) && Distinct(recent) && |recent| <= MAX_HEALING_EVENTS
    case Heard(_) => true
  }

  predicate AllProper(es: seq<Event>) {
    forall k :: 0 <= k < |es| ==> Proper(es[k])
  }

  // ---------------------------------------------------------------------------
  // The reference: read the stream backwards, newest first
  // ---------------------------------------------------------------------------

  function Unseen(list: seq<Incident>, seen: set<string>): seq<Incident> {
    if list == [] then []
    else (if list[0].id in seen then [] else [list[0]]) + Unseen(list[1..], seen)
  }

  /**
   The incidents by their last word, newest first: each message about an incident not `seen` later
   in the stream, down to the latest snapshot. With `activeOnly`, those whose last word is active.
   */
  function Scan(es: seq<Event>, seen: set<string>, activeOnly: bool): seq<Incident> {
    if es == [] then []
    else
      var before := es[..|es| - 1];
      match es[|es| - 1]
      case Loaded(active, recent) => Unseen(if activeOnly then active else recent, seen)
      case Heard(m) =>
        if m.id in seen then Scan(before, seen, activeOnly)
        else (if activeOnly && m.status.Resolved? then [] else [ToIncident(m)]) + Scan(before, seen + {m.id}, activeOnly)
  }

  // ---------------------------------------------------------------------------
  // Lists
  // ---------------------------------------------------------------------------

  lemma {:induction false} WithoutFacts(list: seq<Incident>, id: string, other: string)
    ensures HasId(Without(list, id), other) <==> HasId(list, other) && other != id
    ensures Distinct(list) ==> Distinct(Without(list, id))
    ensures |Without(list, id)| <= |list|
  {
    if list != [] {
      WithoutFacts(list[1..], id, other);
      Tail(list, other);
      var w := Without(list[1..], id);
      Tail([list[0]] + w, other);
      assert ([list[0]] + w)[1..] == w;
      if Distinct(list) && list[0].id != id {
        WithoutFacts(list[1..], id, list[0].id);
        Tail(list, list[0].id);
      }
    }
  }

  lemma Tail(list: seq<Incident>, id: string)
    requires list != []
    ensures HasId(list, id) <==> list[0].id == id || HasId(list[1..], id)
    ensures Distinct(list) <==> Distinct(list[1..]) && !HasId(list[1..], list[0].id)
  {
    var tail := list[1..];
    if HasId(tail, id) {
      var k :| 0 <= k < |tail| && tail[k].id == id;
      assert list[k + 1].id == id;
    }
    if HasId(list, id) && list[0].id != id {
      var k :| 0 <= k < |list| && list[k].id == id;
      assert tail[k - 1].id == id;
    }
    if Distinct(list) {
      assert forall k :: 0 <= k < |tail| ==> tail[k] == list[k + 1];
    }
    if Distinct(tail) && !HasId(tail, list[0].id) {
      forall i, j | 0 <= i < j < |list| ensures list[i].id != list[j].id {
        assert tail[j - 1] == list[j];
      }
    }
  }

  lemma {:induction false} AbsentIsKept(list: seq<Incident>, id: string)
    requires !HasId(list, id)
    ensures Without(list, id) == list
  {
    if list != [] {
      Tail(list, id);
      AbsentIsKept(list[1..], id);
    }
  }

  /** Removing an incident from a list of distinct ones shifts at most one entry in. */
  lemma {:induction false} WithoutOfPrefix(list: seq<Incident>, id: string, n: nat)
    requires Distinct(list) && n <= |list|
    ensures
      var cut, full := Without(list[..n], id), Without(list, id);
      |cut| >= n - 1 && cut <= full && (n == |list| ==> cut == full)
  {
    if n == |list| {
      assert list[..n] == list;
    }
    if n > 0 {
      Tail(list, id);
      assert list[..n][1..] == list[1..][..n - 1];
      if list[0].id == id {
        AbsentIsKept(list[1..], id);
        assert !HasId(list[1..][..n - 1], id);
        AbsentIsKept(list[1..][..n - 1], id);
      } else {
        WithoutOfPrefix(list[1..], id, n - 1);
      }
    }
  }

  /** Moving to the front and cutting gives the same whether or not the list was cut before. */
  lemma CutCommutes(list: seq<Incident>, e: Incident)
    requires Distinct(list)
    ensures Cut(PutFirst(Cut(list), e)) == Cut(PutFirst(list, e))
  {
    hide Without, Distinct;
    if |list| > MAX_HEALING_EVENTS {
      WithoutOfPrefix(list, e.id, MAX_HEALING_EVENTS);
      var cut, full := PutFirst(Cut(list), e), PutFirst(list, e);
      assert cut <= full && |cut| >= MAX_HEALING_EVENTS;
      WithoutFacts(list, e.id, e.id);
    }
  }

  lemma PutFirstFacts(list: seq<Incident>, e: Incident, id: string)
    ensures HasId(PutFirst(list, e), id) <==> HasId(list, id) || id == e.id
    ensures Distinct(list) ==> Distinct(PutFirst(list, e))
  {
    hide HasId, Distinct, Without;
    WithoutFacts(list, e.id, id);
    WithoutFacts(list, e.id, e.id);
    Tail(PutFirst(list, e), id);
    assert PutFirst(list, e)[1..] == Without(list, e.id);
  }

  lemma CutFacts(list: seq<Incident>, id: string)
    ensures HasId(Cut(list), id) ==> HasId(list, id)
    ensures Distinct(list) ==> Distinct(Cut(list))
    ensures |Cut(list)| <= MAX_HEALING_EVENTS
  {
  }

  // ---------------------------------------------------------------------------
  // What the lists show
  // ---------------------------------------------------------------------------

  lemma {:induction false} CutRecent(es: seq<Event>)
    requires AllProper(es)
    ensures Distinct(Uncut(es).recent)
    ensures Shown(es).recent == Cut(Uncut(es).recent)
    ensures Distinct(Shown(es).recent) && |Shown(es).recent| <= MAX_HEALING_EVENTS
  {
    hide Distinct, Without, Cut, PutFirst, HasId;
    if es == [] {
      CutFacts([], "");
      assert Distinct([]) by { NothingIsDistinct(); }
      assert Cut([]) == [] by { NothingIsDistinct(); }
    } else {
      var before, e := es[..|es| - 1], es[|es| - 1];
      CutRecent(before);
      if e.Heard? {
        CutCommutes(Uncut(before).recent, ToIncident(e.message));
        PutFirstFacts(Uncut(before).recent, ToIncident(e.message), "");
      } else {
        ShortIsUncut(e.recent);
      }
      CutFacts(Uncut(es).recent, "");
    }
  }

  lemma NothingIsDistinct()
    ensures Distinct([]) && Cut([]) == [] && !HasId([], "")
  {
  }

  lemma ShortIsUncut(list: seq<Incident>)
    requires |list| <= MAX_HEALING_EVENTS
    ensures Cut(list) == list
  {
  }

  lemma UnseenHead(e: Incident, list: seq<Incident>, seen: set<string>)
    ensures Unseen([e] + list, seen) == (if e.id in seen then [] else [e]) + Unseen(list, seen)
  {
    assert ([e] + list)[1..] == list;
  }

  lemma {:induction false} UnseenWithout(list: seq<Incident>, id: string, seen: set<string>)
    ensures Unseen(Without(list, id), seen) == Unseen(list, seen + {id})
  {
    if list != [] {
      UnseenWithout(list[1..], id, seen);
      UnseenHead(list[0], Without(list[1..], id), seen);
    }
  }

  lemma {:induction false} NothingSeen(list: seq<Incident>)
    ensures Unseen(list, {}) == list
  {
    if list != [] {
      NothingSeen(list[1..]);
    }
  }

  /** The never-cut lists are what the backward reading gives. */
  lemma {:induction false} UncutIsScan(es: seq<Event>, seen: set<string>, activeOnly: bool)
    ensures Unseen(if activeOnly then Uncut(es).active else Uncut(es).recent, seen) == Scan(es, seen, activeOnly)
  {
    hide Unseen, Without, WithoutPrefix, WithoutSuffix;
    if es == [] {
      assert Unseen([], seen) == [] by { EmptyUnseen(seen); }
    } else if es[|es| - 1].Heard? {
      var before, m := es[..|es| - 1], es[|es| - 1].message;
      var list := if activeOnly then Uncut(before).active else Uncut(before).recent;
      UncutIsScan(before, seen + {m.id}, activeOnly);
      UnseenWithout(list, m.id, seen);
      UnseenHead(ToIncident(m), Without(list, m.id), seen);
      if m.id in seen {
        assert seen + {m.id} == seen;
      }
    }
  }

  lemma EmptyUnseen(seen: set<string>)
    ensures Unseen([], seen) == []
  {
  }

  /**
   The recent list is always the first fifty incidents of the whole stream, newest word first, each
   once.
   */
  lemma RecentIsTruncation(es: seq<Event>)
    requires AllProper(es)
    ensures Shown(es).recent == Cut(Scan(es, {}, false))
    ensures Distinct(Shown(es).recent) && |Shown(es).recent| <= MAX_HEALING_EVENTS
  {
    CutRecent(es);
    UncutIsScan(es, {}, false);
    NothingSeen(Uncut(es).recent);
  }

  lemma ActiveScan(es: seq<Event>)
    ensures Uncut(es).active == Scan(es, {}, true)
  {
    UncutIsScan(es, {}, true);
    NothingSeen(Uncut(es).active);
  }

  /** Nothing is shown as active twice, or after its last word said resolved. */
  lemma {:induction false} ActiveIsSound(es: seq<Event>, id: string)
    requires AllProper(es)
    ensures Distinct(Shown(es).active)
    ensures HasId(Shown(es).active, id) ==> HasId(Scan(es, {}, true), id)
  {
    hide Distinct, Without, Cut, PutFirst, HasId, Scan;
    ActiveScan(es);
    if es == [] {
      NothingIsDistinct();
    } else {
      var before, e := es[..|es| - 1], es[|es| - 1];
      ActiveIsSound(before, id);
      ActiveScan(before);
      if e.Heard? {
        var incident := ToIncident(e.message);
        WithoutFacts(Shown(before).active, incident.id, id);
        WithoutFacts(Uncut(before).active, incident.id, id);
        PutFirstFacts(Shown(before).active, incident, id);
        PutFirstFacts(Uncut(before).active, incident, id);
        CutFacts(PutFirst(Shown(before).active, incident), id);
      }
    }
  }

  /** A message that reports an active incident. */
  predicate IsReport(es: seq<Event>, k: nat) {
    k < |es| && es[k].Heard? && es[k].message.status.Active?
  }

  ghost predicate ActiveExactAt(es: seq<Event>, n: nat)
    requires n <= |es|
  {
    Shown(es[..n]).active == Scan(es[..n], {}, true)
  }

  ghost predicate FitsAt(es: seq<Event>, k: nat) {
    IsReport(es, k) ==> |Scan(es[..k + 1], {}, true)| <= MAX_HEALING_EVENTS
  }

  /**
   The active list is exact after every event exactly when at most fifty incidents are active each
   time one is reported.
   */
  lemma ActiveIsExactWhile(es: seq<Event>)
    ensures (forall n :: 0 <= n <= |es| ==> ActiveExactAt(es, n)) <==> (forall k :: 0 <= k < |es| ==> FitsAt(es, k))
  {
    hide Scan, PutFirst, Cut;
    if forall n :: 0 <= n <= |es| ==> ActiveExactAt(es, n) {
      forall k | 0 <= k < |es| ensures FitsAt(es, k) {
        assert ActiveExactAt(es, k + 1);
        var before := es[..k];
        assert es[..k + 1][..k] == before;
        if IsReport(es, k) {
          CutFacts(PutFirst(Shown(before).active, ToIncident(es[k].message)), "");
        }
      }
    }
    if forall k :: 0 <= k < |es| ==> FitsAt(es, k) {
      forall n | 0 <= n <= |es| ensures ActiveExactAt(es, n) {
        ExactSoFar(es, n);
      }
    }
  }

  lemma {:induction false} ExactSoFar(es: seq<Event>, n: nat)
    requires n <= |es| && forall k :: 0 <= k < |es| ==> FitsAt(es, k)
    ensures ActiveExactAt(es, n)
  {
    hide Scan, PutFirst, Cut, Without;
    ActiveScan(es[..n]);
    if n > 0 {
      var before := es[..n - 1];
      assert es[..n][..n - 1] == before;
      ExactSoFar(es, n - 1);
      ActiveScan(before);
      assert FitsAt(es, n - 1);
      if IsReport(es, n - 1) {
        ShortIsUncut(PutFirst(Uncut(before).active, ToIncident(es[n - 1].message)));
      }
    }
  }

  // Fifty-one incidents, reported one after another.

  function Name(k: nat): string {
    if k == 0 then "" else Name(k - 1) + "x"
  }

  lemma {:induction false} NameLength(k: nat)
    ensures |Name(k)| == k
  {
    if k > 0 {
      NameLength(k - 1);
    }
  }

  function Report(k: nat): (e: Event)
    ensures e.Heard?
  {
    Heard(Message("healing.task.stuck", Name(k), Warning, "watchdog", Active, ""))
  }

  function Reports(n: nat): seq<Event>
    ensures |Reports(n)| == n
  {
    if n == 0 then [] else Reports(n - 1) + [Report(n - 1)]
  }

  lemma NamesDiffer(j: nat, k: nat)
    requires j < k
    ensures Name(j) != Name(k)
  {
    NameLength(j);
    NameLength(k);
  }

  lemma OneMoreReport(n: nat)
    ensures Uncut(Reports(n + 1)).active == PutFirst(Uncut(Reports(n)).active, ToIncident(Report(n).message))
    ensures ToIncident(Report(n).message).id == Name(n)
  {
    hide PutFirst, Name, WithoutPrefix, WithoutSuffix;
    assert Reports(n + 1)[..n] == Reports(n);
  }

  lemma {:induction false} AllStayActive(n: nat, k: nat)
    requires n <= k
    ensures |Uncut(Reports(n)).active| == n && !HasId(Uncut(Reports(n)).active, Name(k))
  {
    hide Name, Without, HasId, Uncut, Reports, Report, ToIncident;
    if n == 0 {
      NothingReported(Name(k));
    } else {
      OneMoreReport(n - 1);
      AllStayActive(n - 1, n - 1);
      AllStayActive(n - 1, k);
      AbsentIsKept(Uncut(Reports(n - 1)).active, Name(n - 1));
      NamesDiffer(n - 1, k);
      PutFirstFacts(Uncut(Reports(n - 1)).active, ToIncident(Report(n - 1).message), Name(k));
    }
  }

  lemma NothingReported(id: string)
    ensures Uncut(Reports(0)).active == [] && !HasId([], id)
  {
  }

  /** Of fifty-one active incidents the list shows fifty. */
  lemma FiftyFirstIncidentIsCut()
    ensures |Scan(Reports(51), {}, true)| == 51 && |Shown(Reports(51)).active| <= MAX_HEALING_EVENTS
    ensures !ActiveExactAt(Reports(51), 51)
  {
    hide Scan, Uncut;
    var es := Reports(51);
    AllStayActive(51, 51);
    ActiveScan(es);
    assert es[..51] == es;
    assert es == Reports(50) + [Report(50)];
    CutFacts(PutFirst(Shown(es[..50]).active, ToIncident(Report(50).message)), "");
  }

  /** A resolution carries the type its incident was reported with. */
  lemma TypesMatch(t: string)
    ensures WithoutSuffix(WithoutPrefix(PREFIX + t + SUFFIX)) == t
    ensures WithoutSuffix(WithoutPrefix(PREFIX + t)) == WithoutSuffix(t)
  {
    assert (PREFIX + t + SUFFIX)[|PREFIX|..] == t + SUFFIX;
    assert PREFIX <= PREFIX + t + SUFFIX;
    assert (PREFIX + t)[|PREFIX|..] == t;
    assert (t + SUFFIX)[|t|..] == SUFFIX && (t + SUFFIX)[..|t|] == t;
  }

  // ---------------------------------------------------------------------------
  // What an entry says
  // ---------------------------------------------------------------------------

  predicate Ends(s: string, suffix: string) {
    |s| >= |suffix| && s[|s| - |suffix|..] == suffix
  }

  /** The entry tells what the message told; its type is that of the report, also on the resolution. */
  ghost predicate Says(m: Message, e: Incident) {
    && e.id == m.id && e.severity == m.severity && e.source == m.source && e.status == m.status
    && e.createdAt == m.timestamp
    && e.resolvedAt == (if m.status == Resolved then Some(m.timestamp) else None)
    && forall kind: string :: !Ends(kind, ".resolved") ==>
         m.eventType == "healing." + kind || m.eventType == "healing." + kind + ".resolved" ==> e.eventType == kind
  }

  lemma ToIncidentSays(m: Message)
    ensures Says(m, ToIncident(m))
  {
    forall kind: string | !Ends(kind, ".resolved")
      ensures m.eventType == "healing." + kind || m.eventType == "healing." + kind + ".resolved" ==>
        ToIncident(m).eventType == kind
    {
      Stripped(kind);
    }
  }

  lemma Stripped(kind: string)
    requires !Ends(kind, ".resolved")
    ensures WithoutSuffix(WithoutPrefix("healing." + kind)) == kind
    ensures WithoutSuffix(WithoutPrefix("healing." + kind + ".resolved")) == kind
  {
    TypesMatch(kind);
  }

  /** After position `k` of the stream there is neither a snapshot nor a word about the incident. */
  predicate NothingSince(es: seq<Event>, k: nat, id: string) {
    forall j :: k < j < |es| ==> es[j].Heard? && es[j].message.id != id
  }

  /** The entry is the incident's last word: a message, or an entry of the latest snapshot. */
  ghost predicate IsLastWord(es: seq<Event>, k: nat, e: Incident, activeOnly: bool) {
    && k < |es| && NothingSince(es, k, e.id)
    && match es[k]
       case Heard(m) => Says(m, e) && (activeOnly ==> m.status == Active)
       case Loaded(active, recent) => e in if activeOnly then active else recent
  }

  lemma {:induction false} UnseenMembers(list: seq<Incident>, seen: set<string>, e: Incident)
    ensures e in Unseen(list, seen) <==> e in list && e.id !in seen
  {
    if list != [] {
      UnseenMembers(list[1..], seen, e);
      assert list == [list[0]] + list[1..];
    }
  }

  lemma LastWordStays(es: seq<Event>, k: nat, e: Incident, activeOnly: bool, m: Message)
    requires IsLastWord(es, k, e, activeOnly) && e.id != m.id
    ensures IsLastWord(es + [Heard(m)], k, e, activeOnly)
  {
    hide Says;
    var longer := es + [Heard(m)];
    assert forall j :: 0 <= j < |es| ==> longer[j] == es[j];
  }

  lemma {:induction false} ScanTells(es: seq<Event>, seen: set<string>, activeOnly: bool, e: Incident) returns (k: nat)
    requires e in Scan(es, seen, activeOnly)
    ensures IsLastWord(es, k, e, activeOnly) && e.id !in seen
  {
    hide Says, Unseen, ToIncident;
    var n := |es| - 1;
    var before := es[..n];
    match es[n]
    case Loaded(active, recent) =>
      UnseenMembers(if activeOnly then active else recent, seen, e);
      k := n;
    case Heard(m) =>
      assert before + [Heard(m)] == es;
      ToIncidentSays(m);
      if m.id in seen {
        k := ScanTells(before, seen, activeOnly, e);
        LastWordStays(before, k, e, activeOnly, m);
      } else if e in Scan(before, seen + {m.id}, activeOnly) {
        k := ScanTells(before, seen + {m.id}, activeOnly, e);
        LastWordStays(before, k, e, activeOnly, m);
      } else {
        assert ToIncident(m).id == m.id by { IdIsKept(m); }
        k := n;
      }
  }

  lemma IdIsKept(m: Message)
    ensures ToIncident(m).id == m.id
  {
  }

  /** Each message that nothing followed on its incident, nor a snapshot, is read. */
  lemma {:induction false} LastWordIsScanned(es: seq<Event>, seen: set<string>, activeOnly: bool, k: nat) returns (e: Incident)
    requires k < |es| && es[k].Heard? && es[k].message.id !in seen && NothingSince(es, k, es[k].message.id)
    requires activeOnly ==> es[k].message.status == Active
    ensures e in Scan(es, seen, activeOnly) && Says(es[k].message, e)
  {
    hide Says, Unseen, ToIncident;
    var n := |es| - 1;
    if k == n {
      e := ToIncident(es[n].message);
      ToIncidentSays(es[n].message);
    } else {
      var before, m := es[..n], es[n].message;
      assert forall j :: 0 <= j < n ==> before[j] == es[j];
      e := LastWordIsScanned(before, if m.id in seen then seen else seen + {m.id}, activeOnly, k);
    }
  }

  lemma {:induction false} WithoutMembers(list: seq<Incident>, id: string, e: Incident)
    ensures e in Without(list, id) <==> e in list && e.id != id
  {
    if list != [] {
      WithoutMembers(list[1..], id, e);
      assert list == [list[0]] + list[1..];
    }
  }

  /** What is shown as active is among what a list without limit shows, word for word. */
  lemma {:induction false} ActiveIsUncut(es: seq<Event>, e: Incident)
    requires e in Shown(es).active
    ensures e in Uncut(es).active
  {
    hide Without, ToIncident;
    if es != [] {
      var before, last := es[..|es| - 1], es[|es| - 1];
      if last.Heard? {
        WithoutMembers(Shown(before).active, last.message.id, e);
        WithoutMembers(Uncut(before).active, last.message.id, e);
        IdIsKept(last.message);
        if e in Shown(before).active {
          ActiveIsUncut(before, e);
        }
      }
    }
  }

  /** Every entry of both lists is the last word on its incident. */
  lemma EntriesAreLastWords(es: seq<Event>, e: Incident)
    requires AllProper(es)
    ensures e in Shown(es).recent ==> exists k :: IsLastWord(es, k, e, false)
    ensures e in Shown(es).active ==> exists k :: IsLastWord(es, k, e, true)
  {
    hide Scan, Shown, Uncut, Distinct, IsLastWord;
    RecentIsTruncation(es);
    ActiveScan(es);
    if e in Shown(es).recent {
      var k := ScanTells(es, {}, false, e);
    }
    if e in Shown(es).active {
      ActiveIsUncut(es, e);
      var k := ScanTells(es, {}, true, e);
    }
  }

  /** And as long as they fit, every last word that was heard has an entry that tells it. */
  lemma LastWordsAreShown(es: seq<Event>, k: nat)
    requires AllProper(es) && k < |es| && es[k].Heard? && NothingSince(es, k, es[k].message.id)
    ensures |Scan(es, {}, false)| <= MAX_HEALING_EVENTS ==> exists e :: e in Shown(es).recent && Says(es[k].message, e)
    ensures es[k].message.status == Active && (forall j :: 0 <= j < |es| ==> FitsAt(es, j)) ==>
      exists e :: e in Shown(es).active && Says(es[k].message, e)
  {
    hide Scan, Shown, Uncut, Distinct, Says, FitsAt;
    RecentIsTruncation(es);
    var e := LastWordIsScanned(es, {}, false, k);
    if es[k].message.status == Active && forall j :: 0 <= j < |es| ==> FitsAt(es, j) {
      ExactSoFar(es, |es|);
      assert es[..|es|] == es;
      var a := LastWordIsScanned(es, {}, true, k);
    }
  }
}
