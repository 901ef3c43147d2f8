/**
 The retry queue: a binary heap of tasks, and the one-token channel that wakes the
 single consumer when it sleeps past a task that has just become the next one.
 */
module RetryQueue {
  import opened Trees

  /** `backoff` stands for the retry policy a task carries. */
  datatype Task = Task(deadline: int, priority: int, id: string, backoff: int)

  // ---------- The order of tasks ----------

  predicate StringLess(a: string, b: string)
    decreases |a|
  {
    b != "" && (a == "" || a[0] < b[0] || (a[0] == b[0] && StringLess(a[1..], b[1..])))
  }

  /** Earlier deadline first, then higher priority, then smaller id. */
  predicate LessTask(a: Task, b: Task) {
    if a.deadline != b.deadline then a.deadline < b.deadline
    else if a.priority != b.priority then a.priority > b.priority
    else StringLess(a.id, b.id)
  }

  /** `b` does not come before `a`. */
  predicate Leq(a: Task, b: Task) {
    !LessTask(b, a)
  }

  lemma StringTrichotomy(a: string, b: string)
    ensures StringLess(a, b) || StringLess(b, a) || a == b
    ensures !(StringLess(a, b) && StringLess(b, a))
    ensures !StringLess(a, a)
    decreases |a|
  {
    if a != "" {
      StringTrichotomy(a[1..], a[1..]);
      if b != "" {
        StringTrichotomy(a[1..], b[1..]);
        assert a == [a[0]] + a[1..] && b == [b[0]] + b[1..];
      }
    }
  }

  lemma StringTransitive(a: string, b: string, c: string)
    requires StringLess(a, b) && StringLess(b, c)
    ensures StringLess(a, c)
    decreases |a|
  {
    if a != "" && a[0] == b[0] && b[0] == c[0] {
      StringTransitive(a[1..], b[1..], c[1..]);
    }
  }

  /** Strings are ordered by the first character in which they differ, a prefix before what it begins. */
  lemma {:induction false} StringLessIs(a: string, b: string)
    ensures StringLess(a, b) <==> exists n :: DiffersAt(a, b, n)
    decreases |a|
  {
    if b != "" && (a == "" || a[0] < b[0]) {
      assert DiffersAt(a, b, 0);
    }
    if a != "" && b != "" && a[0] == b[0] {
      StringLessIs(a[1..], b[1..]);
      if n :| DiffersAt(a[1..], b[1..], n) {
        assert a[..n + 1] == [a[0]] + a[1..][..n] && b[..n + 1] == [b[0]] + b[1..][..n];
        assert DiffersAt(a, b, n + 1);
      }
      if n :| DiffersAt(a, b, n) {
        assert n > 0;
        assert a[1..][..n - 1] == a[..n][1..] && b[1..][..n - 1] == b[..n][1..];
        assert DiffersAt(a[1..], b[1..], n - 1);
      }
    } else if n :| DiffersAt(a, b, n) {
      assert n > 0 ==> a[..n][0] == b[..n][0];
    }
  }

  /** The strings agree before `n`, where `a` ends or has the smaller character. */
  predicate DiffersAt(a: string, b: string, n: int) {
    0 <= n <= |a| && n < |b| && a[..n] == b[..n] && (n == |a| || a[n] < b[n])
  }

  /** Earlier deadlines first, then higher priorities, then smaller ids. */
  ghost predicate InOrder(a: Task, b: Task) {
    || a.deadline < b.deadline
    || (a.deadline == b.deadline && a.priority > b.priority)
    || (a.deadline == b.deadline && a.priority == b.priority && !exists n :: DiffersAt(b.id, a.id, n))
  }

  /** A task comes no later than another exactly when its deadline, then its priority, then its id says so. */
  lemma LeqIs(a: Task, b: Task)
    ensures Leq(a, b) <==> InOrder(a, b)
  {
    StringLessIs(b.id, a.id);
  }

  lemma LeqTotal(a: Task, b: Task)
    ensures Leq(a, b) || Leq(b, a)
    ensures Leq(a, a)
    ensures LessTask(a, b) ==> Leq(a, b)
  {
    StringTrichotomy(a.id, b.id);
  }

  lemma LeqTransitive(a: Task, b: Task, c: Task)
    requires Leq(a, b) && Leq(b, c)
    ensures Leq(a, c)
  {
    if a.deadline == b.deadline == c.deadline && a.priority == b.priority == c.priority && StringLess(c.id, a.id) {
      StringTrichotomy(a.id, b.id);
      StringTrichotomy(b.id, c.id);
      if a.id != b.id && b.id != c.id {
        StringTransitive(a.id, b.id, c.id);
      }
      StringTrichotomy(a.id, c.id);
    }
  }

  // ---------- Heaps ----------

  function Parent(i: nat): nat
    requires i > 0
  {
    (i - 1) / 2
  }

  ghost predicate IsHeap(h: seq<Task>) {
    forall i | 0 < i < |h| :: Leq(h[Parent(i)], h[i])
  }

  /** The root of a heap comes before everything in it. */
  lemma RootIsLeast(h: seq<Task>, i: nat)
    requires IsHeap(h) && i < |h|
    ensures Leq(h[0], h[i])
    decreases i
  {
    if i == 0 {
      LeqTotal(h[0], h[0]);
    } else {
      RootIsLeast(h, Parent(i));
      LeqTransitive(h[0], h[Parent(i)], h[i]);
    }
  }

  function Swapped(h: seq<Task>, i: nat, j: nat): seq<Task>
    requires i < |h| && j < |h|
  {
    h[i := h[j]][j := h[i]]
  }

  lemma SwapKeepsTasks(h: seq<Task>, i: nat, j: nat)
    requires i < |h| && j < |h|
    ensures multiset(Swapped(h, i, j)) == multiset(h)
  {}

  /** A heap except that `j` may come before its parent; what is below `j` stays above its parent. */
  ghost predicate HeapExceptUp(h: seq<Task>, j: nat) {
    && (forall i | 0 < i < |h| && i != j :: Leq(h[Parent(i)], h[i]))
    && (forall i | 0 < i < |h| && Parent(i) == j && j > 0 :: Leq(h[Parent(j)], h[i]))
  }

  /** A heap in the first `n` except that `j` may come after its children. */
  ghost predicate HeapExceptDown(h: seq<Task>, j: nat, n: nat) {
    n <= |h|
    && (forall i | 0 < i < n && Parent(i) != j :: Leq(h[Parent(i)], h[i]))
    && (forall i | 0 < i < n && Parent(i) == j && j > 0 :: Leq(h[Parent(j)], h[i]))
  }

  lemma SwapUp(h: seq<Task>, j: nat)
    requires 0 < j < |h| && HeapExceptUp(h, j) && LessTask(h[j], h[Parent(j)])
    ensures HeapExceptUp(Swapped(h, j, Parent(j)), Parent(j))
  {
    var p := Parent(j);
    var s := Swapped(h, j, p);
    LeqTotal(h[j], h[p]);
    forall i | 0 < i < |s| && i != p ensures Leq(s[Parent(i)], s[i]) {
      if Parent(i) == p && i != j {
        LeqTransitive(h[j], h[p], h[i]);
      }
    }
    forall i | 0 < i < |s| && Parent(i) == p && p > 0 ensures Leq(s[Parent(p)], s[i]) {
      if i != j {
        LeqTransitive(h[Parent(p)], h[p], h[i]);
      }
    }
  }

  /** The child that `down` compares with: the smaller of the two. */
  function SmallerChild(h: seq<Task>, j: nat, n: nat): nat
    requires n <= |h| && 2 * j + 1 < n
  {
    if 2 * j + 2 < n && LessTask(h[2 * j + 2], h[2 * j + 1]) then 2 * j + 2 else 2 * j + 1
  }

  lemma SwapDown(h: seq<Task>, j: nat, n: nat)
    requires n <= |h| && 2 * j + 1 < n && HeapExceptDown(h, j, n)
    requires LessTask(h[SmallerChild(h, j, n)], h[j])
    ensures HeapExceptDown(Swapped(h, j, SmallerChild(h, j, n)), SmallerChild(h, j, n), n)
  {
    var c := SmallerChild(h, j, n);
    var s := Swapped(h, j, c);
    LeqTotal(h[c], h[j]);
    if 2 * j + 2 < n { LeqTotal(h[2 * j + 1], h[2 * j + 2]); }
    forall i | 0 < i < n && Parent(i) != c ensures Leq(s[Parent(i)], s[i]) {
      if i == j {
        assert Parent(c) == j;
      } else if Parent(i) == j && i != c {
        assert i == 2 * j + 1 || i == 2 * j + 2;
      }
    }
    forall i | 0 < i < n && Parent(i) == c ensures Leq(s[Parent(c)], s[i]) {
      assert Leq(h[Parent(i)], h[i]);
    }
  }

  lemma DownEnds(h: seq<Task>, j: nat, n: nat)
    requires n <= |h| && HeapExceptDown(h, j, n)
    requires 2 * j + 1 < n ==> Leq(h[j], h[SmallerChild(h, j, n)])
    ensures IsHeap(h[..n])
  {
    forall i | 0 < i < n ensures Leq(h[Parent(i)], h[i]) {
      if Parent(i) == j {
        assert i == 2 * j + 1 || i == 2 * j + 2;
        if 2 * j + 2 < n { LeqTotal(h[2 * j + 1], h[2 * j + 2]); }
        if i != SmallerChild(h, j, n) {
          LeqTransitive(h[j], h[SmallerChild(h, j, n)], h[i]);
        }
      }
    }
  }

  // ---------- The queue ----------

  class Queue {
    var tasks: seq<Task>
    /** A token in the wake-up channel, whose capacity is one. */
    var token: bool
    /** The instant until which the consumer has decided to sleep, between computing its wait and waking up. */
    ghost var target: Option<int>
    ghost var pushed: multiset<Task>
    ghost var popped: multiset<Task>
    ghost var cleaned: multiset<Task>

    /** Tasks are neither lost nor duplicated. */
    ghost predicate Conserved()
      reads this
    {
      pushed == popped + cleaned + multiset(tasks)
    }

    /** A consumer about to sleep has a token waiting, or nothing to wake for, or wakes in time for the head. */
    ghost predicate NoOversleep()
      reads this
    {
      target.Some? ==> token || tasks == [] || target.value <= tasks[0].deadline
    }

    ghost predicate Valid()
      reads this
    {
      IsHeap(tasks) && Conserved() && NoOversleep()
    }

    constructor ()
      ensures Valid() && tasks == [] && !token && target.None?
      ensures pushed == popped == cleaned == multiset{}
    {
      tasks, token, target := [], false, None;
      pushed, popped, cleaned := multiset{}, multiset{}, multiset{};
    }

    method NotifyLocked()
      modifies `token
      ensures token
    {
      token := true;
    }

    /** Appends a task and moves it up. */
    method HeapPush(task: Task)
      requires IsHeap(tasks)
      modifies `tasks
      ensures IsHeap(tasks) && multiset(tasks) == multiset(old(tasks)) + multiset{task}
    {
      tasks := tasks + [task];
      var j: nat := |tasks| - 1;
      while j > 0 && LessTask(tasks[j], tasks[Parent(j)])
        invariant j < |tasks| && |tasks| == |old(tasks)| + 1
        invariant HeapExceptUp(tasks, j)
        invariant multiset(tasks) == multiset(old(tasks)) + multiset{task}
        decreases j
      {
        SwapUp(tasks, j);
        SwapKeepsTasks(tasks, j, Parent(j));
        tasks := Swapped(tasks, j, Parent(j));
        j := Parent(j);
      }
    }

    /** Moves the last task to the root, and down from there. */
    method HeapPop() returns (task: Task)
      requires IsHeap(tasks) && tasks != []
      modifies `tasks
      ensures IsHeap(tasks) && multiset(old(tasks)) == multiset(tasks) + multiset{task}
      ensures task == old(tasks)[0]
    {
      var n := |tasks| - 1;
      SwapKeepsTasks(tasks, 0, n);
      tasks := Swapped(tasks, 0, n);
      var j := 0;
      while 2 * j + 1 < n && LessTask(tasks[SmallerChild(tasks, j, n)], tasks[j])
        invariant |tasks| == n + 1 && tasks[n] == old(tasks)[0]
        invariant HeapExceptDown(tasks, j, n)
        invariant multiset(tasks) == multiset(old(tasks))
        decreases n - j
      {
        var c := SmallerChild(tasks, j, n);
        SwapDown(tasks, j, n);
        SwapKeepsTasks(tasks, j, c);
        tasks := Swapped(tasks, j, c);
        j := c;
      }
      DownEnds(tasks, j, n);
      task := tasks[n];
      assert tasks == tasks[..n] + [task];
      tasks := tasks[..n];
    }

    /** Notifies if and only if the queue was empty or its head strictly improves. */
    method Batch(ids: seq<string>, priority: int, deadline: int)
      requires Valid()
      modifies this
      ensures Valid()
      ensures multiset(tasks) == multiset(old(tasks)) + BatchTasks(ids, priority, deadline)
      ensures popped == old(popped) && cleaned == old(cleaned) && target == old(target)
      ensures token == (old(token) || (ids != [] && (old(tasks) == [] || LessTask(tasks[0], old(tasks)[0]))))
    {
      if |ids| == 0 {
        return;
      }
      var before := tasks;
      var shouldWake := PushAll(ids, priority, deadline);
      ghost var added := BatchTasks(ids, priority, deadline);
      PushedConserve(pushed, popped, cleaned, multiset(before), multiset(tasks), added);
      pushed := pushed + added;
      if shouldWake {
        NotifyLocked();
      }
      if before != [] {
        HeadDeadline(before[0], tasks[0]);
      }
    }

    /** The loop of `Batch`. */
    method PushAll(ids: seq<string>, priority: int, deadline: int) returns (shouldWake: bool)
      requires IsHeap(tasks) && ids != []
      modifies `tasks
      ensures IsHeap(tasks) && tasks != []
      ensures multiset(tasks) == multiset(old(tasks)) + BatchTasks(ids, priority, deadline)
      ensures shouldWake <==> old(tasks) == [] || LessTask(tasks[0], old(tasks)[0])
      ensures old(tasks) != [] ==> Leq(tasks[0], old(tasks)[0])
    {
      var first := tasks;
      shouldWake := |tasks| == 0;
      if first != [] { LeqTotal(first[0], first[0]); }
      for i := 0 to |ids|
        invariant IsHeap(tasks)
        invariant multiset(tasks) == multiset(first) + BatchTasks(ids[..i], priority, deadline)
        invariant i > 0 || first != [] ==> tasks != []
        invariant first != [] ==> (shouldWake <==> LessTask(tasks[0], first[0])) && Leq(tasks[0], first[0])
        invariant first == [] ==> shouldWake
      {
        assert ids[..i + 1][..i] == ids[..i];
        var task := Task(deadline, priority, ids[i], 0);
        var before := tasks;
        if !shouldWake && LessTask(task, tasks[0]) {
          shouldWake := true;
        }
        HeapPush(task);
        assert task in multiset(tasks);
        if first != [] {
          HeadAfterPush(before, tasks, task);
          ImprovementKept(first[0], before[0], tasks[0], task);
        }
      }
      assert ids[..|ids|] == ids;
    }

    /** Re-schedules a task; `next` is what its policy answers, none when retries are exceeded. */
    method Retry(task: Task, next: Option<int>, now: int) returns (ok: bool)
      requires Valid()
      modifies this
      ensures Valid() && ok == next.Some?
      ensures popped == old(popped) && cleaned == old(cleaned) && target == old(target)
      ensures !ok ==> tasks == old(tasks) && token == old(token)
      ensures ok ==> multiset(tasks) == multiset(old(tasks)) + multiset{task.(deadline := now + next.value)}
      ensures ok ==> token == (old(token) || old(tasks) == [] || LessTask(tasks[0], old(tasks)[0]))
    {
      if next.None? {
        return false;
      }
      var scheduled := task.(deadline := now + next.value);
      var before := tasks;
      var shouldWake := |tasks| == 0 || LessTask(scheduled, tasks[0]);
      HeapPush(scheduled);
      pushed := pushed + multiset{scheduled};
      if shouldWake {
        NotifyLocked();
      }
      if before != [] {
        HeadAfterPush(before, tasks, scheduled);
        HeadDeadline(before[0], tasks[0]);
        LeqTotal(before[0], before[0]);
        ImprovementKept(before[0], before[0], tasks[0], scheduled);
      }
      return true;
    }

    method Cleanup()
      requires Valid()
      modifies this
      ensures Valid() && tasks == []
      ensures cleaned == old(cleaned) + multiset(old(tasks)) && pushed == old(pushed) && popped == old(popped)
      ensures target == old(target)
    {
      if |tasks| > 0 {
        cleaned := cleaned + multiset(tasks);
        tasks := [];
        NotifyLocked();
      }
    }

    /**
     Returns the head if it is due; otherwise the instant until which to wait, an hour
     away when there is nothing to wait for.
     */
    method NextReady(now: int, hour: nat) returns (task: Option<Task>, until: int)
      requires Valid()
      modifies this
      ensures Valid() && token == old(token) && pushed == old(pushed) && cleaned == old(cleaned)
      ensures task.Some? <==> old(tasks) != [] && old(tasks)[0].deadline <= now
      ensures task.Some? ==>
                && task.value == old(tasks)[0] && task.value.deadline <= now && target.None?
                && multiset(old(tasks)) == multiset(tasks) + multiset{task.value}
                && popped == old(popped) + multiset{task.value}
                && (forall t | t in multiset(old(tasks)) :: Leq(task.value, t))
      ensures task.None? ==> tasks == old(tasks) && popped == old(popped) && target == Some(until)
      ensures task.None? ==> until == if tasks == [] then now + hour else tasks[0].deadline
    {
      if |tasks| == 0 {
        target := Some(now + hour);
        return None, now + hour;
      }
      if tasks[0].deadline > now {
        target := Some(tasks[0].deadline);
        return None, tasks[0].deadline;
      }
      forall t | t in multiset(tasks) ensures Leq(tasks[0], t) {
        var i :| 0 <= i < |tasks| && tasks[i] == t;
        RootIsLeast(tasks, i);
      }
      ghost var before := tasks;
      var next := HeapPop();
      PoppedConserve(pushed, popped, cleaned, multiset(before), multiset(tasks), next);
      popped := popped + multiset{next};
      target := None;
      return Some(next), now;
    }

    /** The consumer takes the token, or its timer fires, and looks again. */
    method Wake(byToken: bool)
      requires Valid() && (byToken ==> token)
      modifies this
      ensures Valid() && target.None? && tasks == old(tasks)
      ensures pushed == old(pushed) && popped == old(popped) && cleaned == old(cleaned)
      ensures token == (old(token) && !byToken)
    {
      target := None;
      if byToken {
        token := false;
      }
    }

    /**
     Looks at the head, sleeps, and looks again until a task is due; none when the
     context ends first. `looks` is what the clock shows each time, and whether it is a
     token or the timer that ends the sleep after it.
     */
    method Pop(looks: seq<Look>, hour: nat) returns (task: Option<Task>)
      requires Valid() && target.None?
      modifies this
      ensures Valid() && target.None? && pushed == old(pushed) && cleaned == old(cleaned)
      ensures task.Some? <==> old(tasks) != [] && exists i :: 0 <= i < |looks| && old(tasks)[0].deadline <= looks[i].now
      ensures task.Some? ==>
                && task.value == old(tasks)[0]
                && multiset(old(tasks)) == multiset(tasks) + multiset{task.value}
                && (forall t | t in multiset(old(tasks)) :: Leq(task.value, t))
      ensures task.None? ==> tasks == old(tasks)
    {
      for i := 0 to |looks|
        invariant Valid() && target.None? && tasks == old(tasks) && pushed == old(pushed) && cleaned == old(cleaned)
        invariant tasks == [] || forall j | 0 <= j < i :: looks[j].now < tasks[0].deadline
      {
        var until;
        task, until := NextReady(looks[i].now, hour);
        if task.Some? {
          return;
        }
        Wake(looks[i].byToken && token);
      }
      task := None;
    }

    /**
     Successive pops with nothing pushed in between, whatever the clock shows: each task
     comes before all that are left, so they come sorted by deadline, descending
     priority and id.
     */
    method Pops(calls: seq<seq<Look>>, hour: nat) returns (pops: seq<Task>)
      requires Valid() && target.None?
      modifies this
      ensures Valid() && multiset(old(tasks)) == multiset(tasks) + multiset(pops)
      ensures PopRun(multiset(old(tasks)), pops)
      ensures forall i, j | 0 <= i < j < |pops| :: Leq(pops[i], pops[j])
      ensures forall i, j | 0 <= i < j < |pops| :: InOrder(pops[i], pops[j])
    {
      pops := [];
      for n := 0 to |calls|
        invariant Valid() && target.None?
        invariant multiset(old(tasks)) == multiset(tasks) + multiset(pops)
        invariant PopRun(multiset(old(tasks)), pops)
      {
        ghost var before := multiset(tasks);
        var task := Pop(calls[n], hour);
        if task.Some? {
          PopRunSnoc(multiset(old(tasks)), before, pops, task.value);
          pops := pops + [task.value];
        }
      }
      RunIsInOrder(multiset(old(tasks)), pops);
    }
  }

  /** A look at the clock, and what ends the sleep after it. */
  datatype Look = Look(now: int, byToken: bool)

  lemma PushedConserve(pushed: multiset<Task>, popped: multiset<Task>, cleaned: multiset<Task>,
                       before: multiset<Task>, after: multiset<Task>, added: multiset<Task>)
    requires pushed == popped + cleaned + before && after == before + added
    ensures pushed + added == popped + cleaned + after
  {}

  lemma PoppedConserve(pushed: multiset<Task>, popped: multiset<Task>, cleaned: multiset<Task>,
                       before: multiset<Task>, after: multiset<Task>, task: Task)
    requires pushed == popped + cleaned + before && before == after + multiset{task}
    ensures pushed == (popped + multiset{task}) + cleaned + after
  {}

  function BatchTasks(ids: seq<string>, priority: int, deadline: int): multiset<Task>
    decreases |ids|
  {
    if ids == [] then multiset{}
    else BatchTasks(ids[..|ids| - 1], priority, deadline) + multiset{Task(deadline, priority, ids[|ids| - 1], 0)}
  }

  /** A batch has one task for each id that is listed, with its priority and deadline and a new policy. */
  lemma {:induction false} BatchTasksAre(ids: seq<string>, priority: int, deadline: int, t: Task)
    ensures BatchTasks(ids, priority, deadline)[t]
         == if t.priority == priority && t.deadline == deadline && t.backoff == 0 then multiset(ids)[t.id] else 0
    decreases |ids|
  {
    if ids != [] {
      var init, last := ids[..|ids| - 1], ids[|ids| - 1];
      assert ids == init + [last];
      BatchTasksAre(init, priority, deadline, t);
    }
  }

  /** The head after a push is the better of the old head and the new task. */
  lemma HeadAfterPush(before: seq<Task>, after: seq<Task>, task: Task)
    requires IsHeap(before) && IsHeap(after) && before != []
    requires multiset(after) == multiset(before) + multiset{task}
    ensures after != []
    ensures Leq(after[0], before[0]) && Leq(after[0], task)
    ensures after[0] == task || Leq(before[0], after[0])
  {
    assert before[0] in multiset(after) && task in multiset(after);
    var i :| 0 <= i < |after| && after[i] == before[0];
    var j :| 0 <= j < |after| && after[j] == task;
    RootIsLeast(after, i);
    RootIsLeast(after, j);
    assert after[0] in multiset(after);
    if after[0] != task {
      assert after[0] in multiset(before);
      var k :| 0 <= k < |before| && before[k] == after[0];
      RootIsLeast(before, k);
    }
  }

  /** The head beats the original one after a push if and only if it did before, or the new task beats the head. */
  lemma ImprovementKept(original: Task, before: Task, after: Task, task: Task)
    requires Leq(before, original) && Leq(after, before) && Leq(after, task)
    requires after == task || Leq(before, after)
    ensures Leq(after, original)
    ensures LessTask(after, original) <==> LessTask(before, original) || LessTask(task, before)
  {
    LeqTransitive(after, before, original);
    if LessTask(before, original) && Leq(original, after) {
      LeqTransitive(original, after, before);
    }
    if LessTask(task, before) && Leq(original, after) {
      LeqTransitive(original, after, task);
      LeqTransitive(before, original, task);
    }
    if !LessTask(before, original) && !LessTask(task, before) {
      if after == task {
        LeqTransitive(original, before, task);
      } else {
        LeqTransitive(original, before, after);
      }
    }
  }

  lemma HeadDeadline(before: Task, after: Task)
    requires Leq(after, before)
    ensures after.deadline <= before.deadline
    ensures !LessTask(after, before) ==> after.deadline == before.deadline
  {}

  /** Tasks popped one after the other, with nothing pushed in between: each comes before all that are left. */
  ghost predicate PopRun(tasks: multiset<Task>, pops: seq<Task>)
    decreases |pops|
  {
    pops != [] ==>
      && pops[0] in tasks
      && (forall t | t in tasks :: Leq(pops[0], t))
      && PopRun(tasks - multiset{pops[0]}, pops[1..])
  }

  /** One more task that comes before all that the run has left. */
  lemma {:induction false} PopRunSnoc(tasks: multiset<Task>, left: multiset<Task>, pops: seq<Task>, task: Task)
    requires PopRun(tasks, pops) && tasks == left + multiset(pops)
    requires task in left && forall t | t in left :: Leq(task, t)
    ensures PopRun(tasks, pops + [task])
    decreases |pops|
  {
    if pops == [] {
      assert multiset(pops) == multiset{};
      assert [task][1..] == [];
    } else {
      assert pops == [pops[0]] + pops[1..];
      assert tasks - multiset{pops[0]} == left + multiset(pops[1..]);
      PopRunSnoc(tasks - multiset{pops[0]}, left, pops[1..], task);
      assert (pops + [task])[1..] == pops[1..] + [task];
    }
  }

  lemma PopsComeFrom(tasks: multiset<Task>, pops: seq<Task>, i: nat)
    requires PopRun(tasks, pops) && i < |pops|
    ensures pops[i] in tasks
    decreases |pops|
  {
    if i > 0 {
      PopsComeFrom(tasks - multiset{pops[0]}, pops[1..], i - 1);
    }
  }

  /** Successive pops are sorted by deadline, then descending priority, then id. */
  lemma {:induction false} PopsAreSorted(tasks: multiset<Task>, pops: seq<Task>, i: nat, j: nat)
    requires PopRun(tasks, pops) && i < j < |pops|
    ensures Leq(pops[i], pops[j])
    decreases |pops|
  {
    if i == 0 {
      PopsComeFrom(tasks, pops, j);
    } else {
      PopsAreSorted(tasks - multiset{pops[0]}, pops[1..], i - 1, j - 1);
    }
  }

  lemma RunIsInOrder(tasks: multiset<Task>, pops: seq<Task>)
    requires PopRun(tasks, pops)
    ensures forall i, j | 0 <= i < j < |pops| :: Leq(pops[i], pops[j]) && InOrder(pops[i], pops[j])
  {
    forall i, j | 0 <= i < j < |pops| ensures Leq(pops[i], pops[j]) && InOrder(pops[i], pops[j]) {
      PopsAreSorted(tasks, pops, i, j);
      LeqIs(pops[i], pops[j]);
    }
  }
}
