/** The editor's two-level cache of concrete analyses: one map by full key (input digest and context) and one
    from the context to the full key stored last. editors/vscode-tsl/src/analysisModel.ts */
module AnalysisCache {

  import opened Text
  import opened Wrappers

  const NUL: string := ['\0']

  /** attributes holds the entries in the order the key function sorts them into. */
  datatype Context = Context(primitive: string, profile: string, backend: string, extension: string,
                             elementType: string, toTarget: Option<string>, signature: Option<string>,
                             attributes: seq<(string, string)>)

  datatype Analysis = Analysis(digest: string, context: Context, body: string)

  // --- keys ---

  function OrEmpty(o: Option<string>): string {
    if o.Some? then o.value else ""
  }

  function Entries(attributes: seq<(string, string)>): (r: seq<string>)
    ensures |r| == |attributes|
    ensures forall i {:trigger r[i]} :: 0 <= i < |r| ==> r[i] == attributes[i].0 + "=" + attributes[i].1
  {
    if attributes == [] then []
    else [attributes[0].0 + "=" + attributes[0].1] + Entries(attributes[1..])
  }

  function Parts(c: Context): (r: seq<string>)
    ensures |r| == 7 + |c.attributes|
  {
    [c.primitive, c.profile, c.backend, c.extension, c.elementType, OrEmpty(c.toTarget), OrEmpty(c.signature)]
    + Entries(c.attributes)
  }

  function Joined(parts: seq<string>): string
    requires parts != []
  {
    if |parts| == 1 then parts[0] else parts[0] + NUL + Joined(parts[1..])
  }

  function ContextKey(c: Context): string {
    Joined(Parts(c))
  }

  function FullKey(a: Analysis): string {
    a.digest + NUL + ContextKey(a.context)
  }

  /** The key as text: seven fields with NUL between them, null as the empty string, then each attribute. */
  lemma {:induction false} KeyInFull(c: Context, name: string, value: string)
    ensures c.attributes == [] ==>
              var target := if c.toTarget.Some? then c.toTarget.value else "";
              var signature := if c.signature.Some? then c.signature.value else "";
              var end := c.backend + NUL + (c.extension + NUL + (c.elementType + NUL + (target + NUL + signature)));
              ContextKey(c) == c.primitive + NUL + (c.profile + NUL + end)
    ensures ContextKey(c.(attributes := c.attributes + [(name, value)]))
         == ContextKey(c) + NUL + (name + "=" + value)
  {
    if c.attributes == [] {
      JoinedStep(Parts(c));
      JoinedStep(Parts(c)[1..]);
      JoinedStep(Parts(c)[2..]);
      JoinedStep(Parts(c)[3..]);
      JoinedStep(Parts(c)[4..]);
      JoinedStep(Parts(c)[5..]);
    }
    var more := c.(attributes := c.attributes + [(name, value)]);
    EntriesAppend(c.attributes, (name, value));
    assert Parts(more) == Parts(c) + [name + "=" + value];
    JoinedAppends(Parts(c), name + "=" + value);
  }

  lemma {:induction false} JoinedStep(parts: seq<string>)
    requires |parts| > 1
    ensures Joined(parts) == parts[0] + NUL + Joined(parts[1..])
    ensures |parts| == 2 ==> Joined(parts) == parts[0] + NUL + parts[1]
    ensures |parts| > 2 ==> parts[1..][1..] == parts[2..]
  {
  }

  lemma {:induction false} EntriesAppend(attributes: seq<(string, string)>, last: (string, string))
    ensures Entries(attributes + [last]) == Entries(attributes) + [last.0 + "=" + last.1]
  {
  }

  lemma {:induction false} JoinedAppends(parts: seq<string>, last: string)
    requires parts != []
    ensures Joined(parts + [last]) == Joined(parts) + NUL + last
  {
    if |parts| > 1 {
      JoinedAppends(parts[1..], last);
      assert (parts + [last])[1..] == parts[1..] + [last];
    }
  }

  // --- what equal context keys mean ---

  predicate NulFree(s: string) {
    '\0' !in s
  }

  predicate AllNulFree(parts: seq<string>) {
    forall i :: 0 <= i < |parts| ==> NulFree(parts[i])
  }

  lemma {:induction false} HeadOfJoined(parts: seq<string>)
    requires parts != [] && NulFree(parts[0])
    ensures Find(Joined(parts), '\0') == |parts[0]| <= |Joined(parts)|
    ensures Joined(parts)[..|parts[0]|] == parts[0]
    ensures |parts| == 1 <==> |Joined(parts)| == |parts[0]|
    ensures |parts| > 1 ==> Joined(parts)[|parts[0]| + 1..] == Joined(parts[1..])
  {
    if |parts| == 1 {
      FindNothing(parts[0], '\0');
    } else {
      FindInSplit(parts[0], '\0', Joined(parts[1..]));
    }
  }

  lemma {:induction false} JoinIsInjective(p: seq<string>, q: seq<string>)
    requires p != [] && q != [] && AllNulFree(p) && AllNulFree(q)
    requires Joined(p) == Joined(q)
    ensures p == q
    decreases |p|
  {
    HeadOfJoined(p);
    HeadOfJoined(q);
    assert p == [p[0]] + p[1..] && q == [q[0]] + q[1..];
    if |p| > 1 {
      JoinIsInjective(p[1..], q[1..]);
    }
  }

  /** No field holds a NUL and no attribute name an equals sign. */
  predicate Plain(c: Context) {
    && AllNulFree(Parts(c))
    && forall i :: 0 <= i < |c.attributes| ==> '=' !in c.attributes[i].0
  }

  /** A context with null read as the empty string. */
  function Normal(c: Context): Context {
    c.(toTarget := Some(OrEmpty(c.toTarget)), signature := Some(OrEmpty(c.signature)))
  }

  lemma {:induction false} EntriesAreInjective(a: seq<(string, string)>, b: seq<(string, string)>)
    requires forall i :: 0 <= i < |a| ==> '=' !in a[i].0
    requires forall i :: 0 <= i < |b| ==> '=' !in b[i].0
    requires Entries(a) == Entries(b)
    ensures a == b
  {
    assert |a| == |b|;
    forall i | 0 <= i < |a| ensures a[i] == b[i] {
      assert Entries(a)[i] == Entries(b)[i];
      SplitsAgree(a[i].0, a[i].1, b[i].0, b[i].1, '=');
    }
  }

  /** Two plain contexts share a key exactly when they are the same context up to null against empty. */
  lemma {:induction false} SameKeyIffSameContext(c: Context, d: Context)
    requires Plain(c) && Plain(d)
    ensures ContextKey(c) == ContextKey(d) <==> Normal(c) == Normal(d)
  {
    var p, q := Parts(c), Parts(d);
    if ContextKey(c) == ContextKey(d) {
      JoinIsInjective(p, q);
      assert p[7..] == Entries(c.attributes) && q[7..] == Entries(d.attributes);
      EntriesAreInjective(c.attributes, d.attributes);
      assert p[0] == q[0] && p[1] == q[1] && p[2] == q[2] && p[3] == q[3];
      assert p[4] == q[4] && p[5] == q[5] && p[6] == q[6];
    }
    if Normal(c) == Normal(d) {
      assert c.primitive == Normal(c).primitive && c.attributes == Normal(c).attributes;
      assert OrEmpty(c.toTarget) == Normal(c).toTarget.value && OrEmpty(c.signature) == Normal(c).signature.value;
      assert p == q;
    }
  }

  // --- the cache ---

  datatype Stored = Stored(analysis: Analysis, workspaceGeneration: int, cacheGeneration: nat)

  datatype Maps = Maps(byFullKey: map<string, Stored>, latestByContext: map<string, string>, cacheGeneration: nat)

  const EMPTY := Maps(map[], map[], 0)

  datatype Event = Store(analysis: Analysis, workspaceGeneration: int) | Invalidate

  function After(m: Maps, e: Event): Maps {
    match e
    case Store(a, w) =>
      Maps(m.byFullKey[FullKey(a) := Stored(a, w, m.cacheGeneration)],
           m.latestByContext[ContextKey(a.context) := FullKey(a)], m.cacheGeneration)
    case Invalidate => m.(cacheGeneration := m.cacheGeneration + 1)
  }

  function Run(history: seq<Event>): Maps {
    if history == [] then EMPTY else After(Run(history[..|history| - 1]), history[|history| - 1])
  }

  function Lookup(m: Maps, key: string): Option<Stored> {
    if key in m.latestByContext && m.latestByContext[key] != "" && m.latestByContext[key] in m.byFullKey
    then Some(m.byFullKey[m.latestByContext[key]]) else None
  }

  function ValidIn(m: Maps, key: string, workspaceGeneration: int): Option<Analysis> {
    match Lookup(m, key)
    case None => None
    case Some(s) =>
      if s.workspaceGeneration == workspaceGeneration && s.cacheGeneration == m.cacheGeneration
      then Some(s.analysis) else None
  }

  datatype Cached = Cached(analysis: Analysis, workspaceGeneration: int, stale: bool)

  function LatestIn(m: Maps, key: string, workspaceGeneration: int): Option<Cached> {
    match Lookup(m, key)
    case None => None
    case Some(s) =>
      Some(Cached(s.analysis, s.workspaceGeneration,
                  s.workspaceGeneration != workspaceGeneration || s.cacheGeneration != m.cacheGeneration))
  }

  // --- the single map it stands for ---

  /** The entry last stored under a key, and whether no invalidation came after it. */
  datatype Entry = Entry(analysis: Analysis, workspaceGeneration: int, current: bool)

  function LastEntry(history: seq<Event>, key: string): Option<Entry> {
    if history == [] then None
    else
      var earlier := history[..|history| - 1];
      match history[|history| - 1]
      case Store(a, w) =>
        if ContextKey(a.context) == key then Some(Entry(a, w, true)) else LastEntry(earlier, key)
      case Invalidate =>
        match LastEntry(earlier, key)
        case None => None
        case Some(e) => Some(e.(current := false))
  }

  /** Stored for this context in the asked workspace generation, and not invalidated since. */
  function ValidEntry(entry: Option<Entry>, workspaceGeneration: int): Option<Analysis> {
    if entry.Some? && entry.value.workspaceGeneration == workspaceGeneration && entry.value.current
    then Some(entry.value.analysis) else None
  }

  function LatestEntry(entry: Option<Entry>, workspaceGeneration: int): Option<Cached> {
    if entry.Some?
    then Some(Cached(entry.value.analysis, entry.value.workspaceGeneration,
                     entry.value.workspaceGeneration != workspaceGeneration || !entry.value.current))
    else None
  }

  // --- the last entry in terms of the history ---

  /** Step i is the last to store anything under the key. */
  ghost predicate StoredLastAt(history: seq<Event>, key: string, i: nat) {
    && i < |history| && history[i].Store? && ContextKey(history[i].analysis.context) == key
    && forall j :: i < j < |history| && history[j].Store? ==> ContextKey(history[j].analysis.context) != key
  }

  ghost predicate InvalidatedAfter(history: seq<Event>, i: nat) {
    exists j :: i < j < |history| && history[j] == Invalidate
  }

  ghost predicate NeverStored(history: seq<Event>, key: string) {
    forall i :: 0 <= i < |history| && history[i].Store? ==> ContextKey(history[i].analysis.context) != key
  }

  /** The last entry is the last store under the key, current until something is invalidated after it. */
  lemma {:induction false} LastEntryIs(history: seq<Event>, key: string)
    ensures LastEntry(history, key).None? <==> NeverStored(history, key)
    ensures forall i: nat :: StoredLastAt(history, key, i) ==>
              LastEntry(history, key) == Some(Entry(history[i].analysis, history[i].workspaceGeneration,
                                                    !InvalidatedAfter(history, i)))
    ensures LastEntry(history, key).Some? ==> exists i: nat :: StoredLastAt(history, key, i)
    decreases |history|
  {
    hide ContextKey;
    if history != [] {
      var n := |history| - 1;
      var earlier := history[..n];
      LastEntryIs(earlier, key);
      if history[n].Store? && ContextKey(history[n].analysis.context) == key {
        assert StoredLastAt(history, key, n) && !InvalidatedAfter(history, n);
      } else {
        forall i: nat
          ensures StoredLastAt(history, key, i) <==> StoredLastAt(earlier, key, i)
        {
          LaterStepKeepsLast(history, key, i);
        }
        forall i: nat | i < n
          ensures InvalidatedAfter(history, i) <==> InvalidatedAfter(earlier, i) || history[n] == Invalidate
        {
          LaterStepInvalidates(history, i);
        }
      }
    }
  }

  lemma {:induction false} LaterStepKeepsLast(history: seq<Event>, key: string, i: nat)
    requires history != []
    requires var last := history[|history| - 1];
             last.Store? ==> ContextKey(last.analysis.context) != key
    ensures StoredLastAt(history, key, i) <==> StoredLastAt(history[..|history| - 1], key, i)
  {
    hide ContextKey;
    var earlier := history[..|history| - 1];
    assert forall j :: 0 <= j < |earlier| ==> earlier[j] == history[j];
  }

  lemma {:induction false} LaterStepInvalidates(history: seq<Event>, i: nat)
    requires i < |history| - 1
    ensures InvalidatedAfter(history, i)
       <==> InvalidatedAfter(history[..|history| - 1], i) || history[|history| - 1] == Invalidate
  {
    var earlier := history[..|history| - 1];
    assert forall j :: 0 <= j < |earlier| ==> earlier[j] == history[j];
  }

  /** Both queries answer for this context key, in every workspace generation, as the single map does. */
  ghost predicate ExactAt(history: seq<Event>, key: string) {
    forall workspaceGeneration: int ::
      && ValidIn(Run(history), key, workspaceGeneration) == ValidEntry(LastEntry(history, key), workspaceGeneration)
      && LatestIn(Run(history), key, workspaceGeneration) == LatestEntry(LastEntry(history, key), workspaceGeneration)
  }

  ghost predicate Exact(history: seq<Event>) {
    forall key: string :: ExactAt(history, key)
  }

  // --- which digests keep full keys apart ---

  predicate DigestsWithin(history: seq<Event>, digests: iset<string>) {
    forall i :: 0 <= i < |history| && history[i].Store? ==> history[i].analysis.digest in digests
  }

  /** No digest continues another one with a NUL. */
  ghost predicate PrefixFree(digests: iset<string>) {
    forall d, e :: d in digests && e in digests ==> !(d + NUL <= e)
  }

  lemma {:induction false} FullKeysApart(d: string, k: string, e: string, l: string)
    requires !(d + NUL <= e) && !(e + NUL <= d) && d + NUL + k == e + NUL + l
    ensures d == e && k == l
  {
    var whole := d + NUL + k;
    assert whole[|d|] == '\0' && whole[|e|] == '\0';
    assert d == whole[..|d|] && e == whole[..|e|];
    assert d + NUL == whole[..|d| + 1] && e + NUL == whole[..|e| + 1];
    assert k == whole[|d| + 1..] && l == whole[|e| + 1..];
  }

  /** What every run keeps: each context key points at the full key of the entry stored last under it. */
  ghost predicate Inv(m: Maps, history: seq<Event>, key: string) {
    match LastEntry(history, key)
    case None => key !in m.latestByContext
    case Some(e) =>
      && key in m.latestByContext && m.latestByContext[key] == e.analysis.digest + NUL + key
      && m.latestByContext[key] in m.byFullKey
      && var s := m.byFullKey[m.latestByContext[key]];
      && s.analysis == e.analysis && s.workspaceGeneration == e.workspaceGeneration
      && s.cacheGeneration <= m.cacheGeneration
      && (e.current <==> s.cacheGeneration == m.cacheGeneration)
  }

  lemma {:induction false} LastDigestIsWithin(history: seq<Event>, digests: iset<string>, key: string)
    requires DigestsWithin(history, digests) && LastEntry(history, key).Some?
    ensures LastEntry(history, key).value.analysis.digest in digests
  {
    var earlier := history[..|history| - 1];
    var last := history[|history| - 1];
    if last.Invalidate? || ContextKey(last.analysis.context) != key {
      LastDigestIsWithin(earlier, digests, key);
    }
  }

  lemma {:induction false} EveryRunKeepsInv(history: seq<Event>, digests: iset<string>, key: string)
    requires PrefixFree(digests) && DigestsWithin(history, digests)
    ensures Inv(Run(history), history, key)
    decreases |history|
  {
    if history != [] {
      var earlier := history[..|history| - 1];
      var last := history[|history| - 1];
      EveryRunKeepsInv(earlier, digests, key);
      if last.Store? && ContextKey(last.analysis.context) != key && LastEntry(earlier, key).Some? {
        LastDigestIsWithin(earlier, digests, key);
        var d, e := LastEntry(earlier, key).value.analysis.digest, last.analysis.digest;
        if d + NUL + key == FullKey(last.analysis) {
          FullKeysApart(d, key, e, ContextKey(last.analysis.context));
        }
      }
    }
  }

  lemma {:induction false} PrefixFreeIsExact(history: seq<Event>, digests: iset<string>)
    requires PrefixFree(digests) && DigestsWithin(history, digests)
    ensures Exact(history)
  {
    forall key: string ensures ExactAt(history, key) {
      EveryRunKeepsInv(history, digests, key);
    }
  }

  /** The context that swallows the end of the longer digest into its first field. */
  function Shifted(c: Context, rest: string): Context {
    c.(primitive := rest + NUL + c.primitive)
  }

  lemma {:induction false} ShiftedKey(c: Context, rest: string)
    ensures ContextKey(Shifted(c, rest)) == rest + NUL + ContextKey(c)
  {
    var p, q := Parts(c), Parts(Shifted(c, rest));
    assert p[0] == c.primitive && q[0] == rest + NUL + c.primitive;
    assert p[1..] == q[1..];
    var tail := Joined(p[1..]);
    assert rest + NUL + c.primitive + NUL + tail == rest + NUL + (c.primitive + NUL + tail);
  }

  /** Two analyses of different contexts, stored one after the other under one full key. */
  function Collision(c: Context, long: string, short: string): seq<Event>
    requires short + NUL <= long
  {
    [Store(Analysis(long, c, "first"), 0), Store(Analysis(short, Shifted(c, long[|short| + 1..]), "second"), 0)]
  }

  lemma {:induction false} CollisionIsNotExact(c: Context, long: string, short: string)
    requires short + NUL <= long
    ensures !Exact(Collision(c, long, short))
  {
    var rest := long[|short| + 1..];
    var first := Analysis(long, c, "first");
    var second := Analysis(short, Shifted(c, rest), "second");
    var h, key := Collision(c, long, short), ContextKey(c);
    ShiftedKey(c, rest);
    assert long == short + NUL + rest;
    assert FullKey(second) == short + NUL + (rest + NUL + key) == short + NUL + rest + NUL + key == FullKey(first);
    assert |ContextKey(second.context)| > |key|;
    var h1 := h[..1];
    assert h1[..0] == [] && h[..|h| - 1] == h1 && h[|h| - 1] == Store(second, 0) && h1[|h1| - 1] == Store(first, 0);
    assert Run([]) == EMPTY;
    assert Run(h1) == After(EMPTY, Store(first, 0));
    assert Run(h) == After(Run(h1), Store(second, 0));
    assert LastEntry(h1, key) == Some(Entry(first, 0, true));
    assert LastEntry(h, key) == Some(Entry(first, 0, true));
    assert Lookup(Run(h), key) == Some(Stored(second, 0, 0));
    assert LatestIn(Run(h), key, 0).value.analysis == second;
    assert LatestEntry(LastEntry(h, key), 0).value.analysis == first;
    assert !ExactAt(h, key);
  }

  /** For a family of digests, every history of stores and invalidations reads back as one map from context
      key to last entry exactly when no digest in the family continues another with a NUL. */
  lemma {:induction false} RefinesOneMapIff(digests: iset<string>)
    ensures (forall history: seq<Event> {:trigger Exact(history)} :: DigestsWithin(history, digests) ==> Exact(history))
            <==> PrefixFree(digests)
  {
    if PrefixFree(digests) {
      forall history: seq<Event> {:trigger Exact(history)} | DigestsWithin(history, digests) ensures Exact(history) {
        PrefixFreeIsExact(history, digests);
      }
    } else {
      var short, long :| short in digests && long in digests && short + NUL <= long;
      var c := Context("", "", "", "", "", None, None, []);
      var h := Collision(c, long, short);
      CollisionIsNotExact(c, long, short);
      assert DigestsWithin(h, digests);
    }
  }

  /** Digests without a NUL, such as hexadecimal ones, always qualify. */
  lemma {:induction false} NulFreeDigestsQualify(digests: iset<string>)
    requires forall d :: d in digests ==> NulFree(d)
    ensures PrefixFree(digests)
  {
    forall d, e | d in digests && e in digests ensures !(d + NUL <= e) {
      assert (d + NUL)[|d|] == '\0';
    }
  }

  ghost function DigestsOf(history: seq<Event>): iset<string> {
    iset i | 0 <= i < |history| && history[i].Store? :: history[i].analysis.digest
  }

  lemma {:induction false} WhenPrefixFree(history: seq<Event>, key: string)
    ensures PrefixFree(DigestsOf(history)) ==> ExactAt(history, key)
  {
    if PrefixFree(DigestsOf(history)) {
      PrefixFreeIsExact(history, DigestsOf(history));
    }
  }

  // --- the class ---

  class ConcreteAnalysisCache {
    var byFullKey: map<string, Stored>
    var latestByContext: map<string, string>
    var cacheGeneration: nat
    ghost var history: seq<Event>

    ghost predicate Valid()
      reads this
    {
      Maps(byFullKey, latestByContext, cacheGeneration) == Run(history)
    }

    constructor ()
      ensures Valid() && history == []
    {
      byFullKey, latestByContext, cacheGeneration, history := map[], map[], 0, [];
    }

    method StoreAnalysis(analysis: Analysis, workspaceGeneration: int)
      requires Valid()
      modifies this
      ensures Valid() && history == old(history) + [Store(analysis, workspaceGeneration)]
    {
      var fullKey := FullKey(analysis);
      byFullKey := byFullKey[fullKey := Stored(analysis, workspaceGeneration, cacheGeneration)];
      latestByContext := latestByContext[ContextKey(analysis.context) := fullKey];
      history := history + [Store(analysis, workspaceGeneration)];
      assert history[..|history| - 1] == old(history);
    }

    method InvalidateAll()
      requires Valid()
      modifies this
      ensures Valid() && history == old(history) + [Invalidate]
    {
      cacheGeneration := cacheGeneration + 1;
      history := history + [Invalidate];
      assert history[..|history| - 1] == old(history);
    }

    method Find(context: Context) returns (stored: Option<Stored>)
      requires Valid()
      ensures stored == Lookup(Run(history), ContextKey(context))
    {
      var key := ContextKey(context);
      if key !in latestByContext || latestByContext[key] == "" || latestByContext[key] !in byFullKey {
        return None;
      }
      return Some(byFullKey[latestByContext[key]]);
    }

    /** With digests that keep full keys apart: the analysis stored last for the context, if that was in this
        workspace generation and nothing was invalidated since. */
    method ValidAnalysis(context: Context, workspaceGeneration: int) returns (r: Option<Analysis>)
      requires Valid()
      ensures r == ValidIn(Run(history), ContextKey(context), workspaceGeneration)
      ensures PrefixFree(DigestsOf(history)) ==>
                r == ValidEntry(LastEntry(history, ContextKey(context)), workspaceGeneration)
      ensures PrefixFree(DigestsOf(history)) ==> forall a ::
                r == Some(a) <==> exists i: nat :: StoredLastAt(history, ContextKey(context), i)
                                                   && history[i] == Store(a, workspaceGeneration)
                                                   && !InvalidatedAfter(history, i)
    {
      LastEntryIs(history, ContextKey(context));
      WhenPrefixFree(history, ContextKey(context));
      var stored := Find(context);
      if stored.Some? && stored.value.workspaceGeneration == workspaceGeneration
         && stored.value.cacheGeneration == cacheGeneration {
        return Some(stored.value.analysis);
      }
      return None;
    }

    /** The same entry whatever its age, marked stale exactly when ValidAnalysis would not return it. */
    method LatestAnalysis(context: Context, workspaceGeneration: int) returns (r: Option<Cached>)
      requires Valid()
      ensures r == LatestIn(Run(history), ContextKey(context), workspaceGeneration)
      ensures PrefixFree(DigestsOf(history)) ==>
                r == LatestEntry(LastEntry(history, ContextKey(context)), workspaceGeneration)
      ensures PrefixFree(DigestsOf(history)) ==>
                && (r == None <==> NeverStored(history, ContextKey(context)))
                && forall i: nat :: StoredLastAt(history, ContextKey(context), i) ==>
                     r == Some(Cached(history[i].analysis, history[i].workspaceGeneration,
                                      history[i].workspaceGeneration != workspaceGeneration
                                      || InvalidatedAfter(history, i)))
    {
      LastEntryIs(history, ContextKey(context));
      WhenPrefixFree(history, ContextKey(context));
      var stored := Find(context);
      if stored.None? {
        return None;
      }
      var s := stored.value;
      return Some(Cached(s.analysis, s.workspaceGeneration,
                         s.workspaceGeneration != workspaceGeneration || s.cacheGeneration != cacheGeneration));
    }
  }
}
