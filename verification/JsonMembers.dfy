// The member map, the object walker that fills it, and its agreement with the
// plain skipper that walks the same text.

module JsonMembers {
  import opened Wrappers
  import opened Bytes
  import opened JsonScan
  import opened JsonString

  type Entries = seq<(bytes, bytes)>

  // ---- The member map ----------------------------------------------------------

  /** Overwrites the first entry with this key, or appends one. */
  function Assign(e: Entries, key: bytes, value: bytes): Entries {
    if e == [] then [(key, value)]
    else if e[0].0 == key then [(key, value)] + e[1..]
    else [e[0]] + Assign(e[1..], key, value)
  }

  /** Value of the first entry with this key; empty when there is none. */
  function Lookup(e: Entries, key: bytes): bytes {
    if e == [] then []
    else if e[0].0 == key then e[0].1
    else Lookup(e[1..], key)
  }

  function AssignAll(e: Entries, raw: Entries): Entries
    decreases |raw|
  {
    if raw == [] then e else AssignAll(Assign(e, raw[0].0, raw[0].1), raw[1..])
  }

  predicate UniqueKeys(e: Entries) {
    forall p, q :: 0 <= p < q < |e| ==> e[p].0 != e[q].0
  }

  predicate HasKey(e: Entries, key: bytes) {
    exists p :: 0 <= p < |e| && e[p].0 == key
  }

  class MemberMap {
    var entries: Entries

    constructor ()
      ensures entries == []
    {
      entries := [];
    }

    method Clear()
      modifies this
      ensures entries == []
    {
      entries := [];
    }

    method InsertOrAssign(key: bytes, value: bytes)
      modifies this
      ensures entries == Assign(old(entries), key, value)
    {
      for i := 0 to |entries|
        invariant entries == old(entries)
        invariant entries[..i] + Assign(entries[i..], key, value) == Assign(entries, key, value)
      {
        assert entries[i..][1..] == entries[i + 1..];
        if entries[i].0 == key {
          entries := entries[i := (key, value)];
          return;
        }
        assert entries[..i] + [entries[i]] == entries[..i + 1];
      }
      assert entries[|entries|..] == [] && entries[..|entries|] == entries;
      entries := entries + [(key, value)];
    }

    method Value(key: bytes) returns (value: bytes)
      ensures value == Lookup(entries, key)
    {
      for i := 0 to |entries|
        invariant Lookup(entries[i..], key) == Lookup(entries, key)
      {
        assert entries[i..][1..] == entries[i + 1..];
        if entries[i].0 == key {
          return entries[i].1;
        }
      }
      value := [];
    }
  }

  lemma {:induction false} AssignSpec(e: Entries, key: bytes, value: bytes, k: bytes)
    ensures Lookup(Assign(e, key, value), k) == if k == key then value else Lookup(e, k)
    ensures HasKey(Assign(e, key, value), k) <==> k == key || HasKey(e, k)
    ensures UniqueKeys(e) ==> UniqueKeys(Assign(e, key, value))
  {
    var a := Assign(e, key, value);
    if e == [] {
      assert a[0].0 == key;
    } else if e[0].0 == key {
      assert a[0].0 == key && a[1..] == e[1..];
      assert forall p :: 0 < p < |e| ==> a[p] == e[p];
    } else {
      AssignSpec(e[1..], key, value, k);
      AssignSpec(e[1..], key, value, e[0].0);
      var t := Assign(e[1..], key, value);
      assert a[0] == e[0] && a[1..] == t;
      HeadTail(a, k);
      HeadTail(e, k);
      HeadTail(e, e[0].0);
      if UniqueKeys(e) {
        assert !HasKey(e[1..], e[0].0) by {
          assert forall p :: 0 <= p < |e[1..]| ==> e[1..][p] == e[p + 1];
        }
        assert UniqueKeys(e[1..]);
        assert forall p :: 0 < p < |a| ==> a[p] == t[p - 1];
      }
    }
  }

  lemma HeadTail(e: Entries, k: bytes)
    requires e != []
    ensures HasKey(e, k) <==> e[0].0 == k || HasKey(e[1..], k)
  {
    if HasKey(e, k) {
      var p :| 0 <= p < |e| && e[p].0 == k;
      if p > 0 {
        assert e[1..][p - 1].0 == k;
      }
    }
    if HasKey(e[1..], k) {
      var p :| 0 <= p < |e[1..]| && e[1..][p].0 == k;
      assert e[p + 1].0 == k;
    }
  }

  /** `p` is the last member of `raw` with this key. */
  predicate IsLast(raw: Entries, key: bytes, p: nat) {
    p < |raw| && raw[p].0 == key && forall q :: p < q < |raw| ==> raw[q].0 != key
  }

  /** The map keeps, for each key, the last member that has it; keys are unique. */
  lemma {:induction false} LastMemberWins(e: Entries, raw: Entries, key: bytes)
    ensures UniqueKeys(e) ==> UniqueKeys(AssignAll(e, raw))
    ensures !HasKey(raw, key) ==> Lookup(AssignAll(e, raw), key) == Lookup(e, key)
    ensures forall p: nat :: IsLast(raw, key, p) ==> Lookup(AssignAll(e, raw), key) == raw[p].1
    decreases |raw|
  {
    if raw != [] {
      var next := Assign(e, raw[0].0, raw[0].1);
      AssignSpec(e, raw[0].0, raw[0].1, key);
      LastMemberWins(next, raw[1..], key);
      HeadTail(raw, key);
      forall p: nat | IsLast(raw, key, p)
        ensures Lookup(AssignAll(e, raw), key) == raw[p].1
      {
        if p > 0 {
          assert IsLast(raw[1..], key, p - 1);
        } else {
          assert forall q :: 0 <= q < |raw[1..]| ==> raw[1..][q] == raw[q + 1];
          assert !HasKey(raw[1..], key);
        }
      }
    }
  }

  /** With distinct keys nothing is overwritten: the map is the member list. */
  lemma {:induction false} DistinctKeysAppend(e: Entries, raw: Entries)
    requires UniqueKeys(e + raw)
    ensures AssignAll(e, raw) == e + raw
    decreases |raw|
  {
    if raw == [] {
      assert e + raw == e;
    } else {
      assert e + raw == (e + [raw[0]]) + raw[1..];
      FreshKeyAppends(e, raw[0].0, raw[0].1) by {
        forall p | 0 <= p < |e| ensures e[p].0 != raw[0].0 {
          assert (e + raw)[p] == e[p] && (e + raw)[|e|] == raw[0];
        }
      }
      DistinctKeysAppend(e + [raw[0]], raw[1..]);
    }
  }

  lemma {:induction false} FreshKeyAppends(e: Entries, key: bytes, value: bytes)
    requires !HasKey(e, key)
    ensures Assign(e, key, value) == e + [(key, value)]
  {
    if e != [] {
      HeadTail(e, key);
      FreshKeyAppends(e[1..], key, value);
      assert [e[0]] + (e[1..] + [(key, value)]) == e + [(key, value)];
    }
  }

  // ---- The walk ------------------------------------------------------------------

  /** A key without escapes is the text between its quotes; others are decoded. */
  function KeyOf(token: bytes): Option<bytes>
    requires |token| >= 2
  {
    if BACKSLASH !in token then Some(token[1..|token| - 1]) else DecodeString(token)
  }

  datatype Walk = Walk(members: Entries, close: nat)

  function AddMember(key: bytes, value: bytes, w: Option<Walk>): Option<Walk> {
    match w case None => None case Some(x) => Some(Walk([(key, value)] + x.members, x.close))
  }

  /** Members from `i` on, and where their closing brace is. */
  function WalkMembers(t: bytes, i: nat): (r: Option<Walk>)
    requires i <= |t|
    ensures r.Some? ==> i < r.value.close < |t| && t[r.value.close] == CLOSE_BRACE
    decreases |t| - i
  {
    match SkipString(t, i)
    case None => None
    case Some(j) =>
      match KeyOf(t[i..j])
      case None => None
      case Some(key) =>
        match MemberStart(t, i)
        case None => None
        case Some(m) =>
          match SkipValue(t, m)
          case None => None
          case Some(n) =>
            match AfterElement(t, n, CLOSE_BRACE)
            case Next(k) => AddMember(key, Trim(t[m..n]), WalkMembers(t, k))
            case Done(k) => Some(Walk([(key, Trim(t[m..n]))], k - 1))
            case Bad => None
  }

  /** The walk over a whole object text, trimmed first. */
  function WalkObject(text: bytes): (r: Option<Walk>)
    ensures r.Some? ==> r.value.close < |Trim(text)| && Trim(text)[r.value.close] == CLOSE_BRACE
  {
    var t := Trim(text);
    if !Has(t, 0, OPEN_BRACE) then None
    else
      var j := SkipWs(t, 1);
      if Has(t, j, CLOSE_BRACE) then Some(Walk([], j)) else WalkMembers(t, j)
  }

  function ParseObject(text: bytes): Option<Entries> {
    match WalkObject(text) case None => None case Some(w) => Some(AssignAll([], w.members))
  }

  /** One member: its decoded key, its value slice, and the cursor after the value. */
  method ParseMember(text: bytes, start: nat) returns (ok: bool, key: bytes, value: bytes, i: nat)
    requires start <= |text|
    ensures start <= i <= |text|
    ensures !ok ==> WalkMembers(text, start).None?
    ensures ok ==> MemberIs(text, start, key, value, i)
  {
    hide SkipValue, AfterKey, SkipString, DecodeString, Trim;
    key, value := [], [];
    ok, i := SkipStringToken(text, start);
    if !ok {
      return;
    }
    var keyToken := text[start..i];
    if BACKSLASH !in keyToken {
      key := keyToken[1..|keyToken| - 1];
    } else {
      var decoded := DecodeJsonString(keyToken);
      if decoded.None? {
        return false, key, value, i;
      }
      key := decoded.value;
    }
    ok, i := AfterKeyLoop(text, i);
    if !ok {
      return;
    }
    var valueStart := i;
    ok, i := SkipValueToken(text, i);
    if ok {
      value := TrimView(text[valueStart..i]);
    }
  }

  predicate MemberIs(t: bytes, start: nat, key: bytes, value: bytes, i: nat) {
    && start < i <= |t|
    && SkipString(t, start).Some?
    && KeyOf(t[start..SkipString(t, start).value]) == Some(key)
    && MemberStart(t, start).Some?
    && SkipValue(t, MemberStart(t, start).value) == Some(i)
    && value == Trim(t[MemberStart(t, start).value..i])
  }

  lemma WalkStep(t: bytes, start: nat, key: bytes, value: bytes, i: nat)
    requires MemberIs(t, start, key, value, i)
    ensures var sep := AfterElement(t, i, CLOSE_BRACE);
            WalkMembers(t, start) ==
            match sep
            case Next(k) => AddMember(key, value, WalkMembers(t, k))
            case Done(k) => Some(Walk([(key, value)], k - 1))
            case Bad => None
  {
  }

  /** What the walk from `start` gives, told by the map so far and the walk from `i`. */
  ghost predicate Progress(all: Option<Walk>, e: Entries, rest: Option<Walk>) {
    (all.None? <==> rest.None?)
    && (rest.Some? ==> all.value.close == rest.value.close
                       && AssignAll([], all.value.members) == AssignAll(e, rest.value.members))
  }

  lemma ProgressStep(all: Option<Walk>, e: Entries, t: bytes, start: nat, key: bytes, value: bytes, i: nat)
    requires MemberIs(t, start, key, value, i)
    requires Progress(all, e, WalkMembers(t, start))
    ensures var sep := AfterElement(t, i, CLOSE_BRACE);
            match sep
            case Next(k) => Progress(all, Assign(e, key, value), WalkMembers(t, k))
            case Done(k) => all.Some? && AssignAll([], all.value.members) == Assign(e, key, value)
            case Bad => all.None?
  {
    WalkStep(t, start, key, value, i);
    var sep := AfterElement(t, i, CLOSE_BRACE);
    if sep.Next? && WalkMembers(t, sep.at).Some? {
      var rest := WalkMembers(t, sep.at).value.members;
      assert ([(key, value)] + rest)[1..] == rest;
      assert AssignAll(e, [(key, value)] + rest) == AssignAll(Assign(e, key, value), rest);
    } else if sep.Done? {
      assert AssignAll(e, [(key, value)]) == AssignAll(Assign(e, key, value), []);
    }
  }

  method ParseObjectMembers(objectJson: bytes, out: MemberMap) returns (ok: bool)
    modifies out
    ensures ok == ParseObject(objectJson).Some?
    ensures ok ==> out.entries == ParseObject(objectJson).value
  {
    hide WalkMembers, AssignAll, Assign, SkipWs, Trim, AfterElement, MemberIs;
    var text := TrimView(objectJson);
    if |text| == 0 || text[0] != OPEN_BRACE {
      return false;
    }
    var i := SkipWsLoop(text, 1);
    out.Clear();
    if i < |text| && text[i] == CLOSE_BRACE {
      EmptyWalk();
      return true;
    }
    ghost var all := WalkMembers(text, i);
    while i < |text|
      invariant i <= |text|
      invariant Progress(all, out.entries, WalkMembers(text, i))
    {
      var memberOk, key, value, after := ParseMember(text, i);
      if !memberOk {
        return false;
      }
      MemberEnd(text, i, key, value, after);
      ProgressStep(all, out.entries, text, i, key, value, after);
      out.InsertOrAssign(key, value);
      var sep := AfterElementLoop(text, after, CLOSE_BRACE);
      match sep
      case Next(at) => i := at;
      case Done(at) => return true;
      case Bad => return false;
    }
    NoWalkAtEnd(text, i);
    ok := false;
  }

  lemma EmptyWalk()
    ensures AssignAll([], []) == []
  {
  }

  lemma MemberEnd(t: bytes, start: nat, key: bytes, value: bytes, i: nat)
    requires MemberIs(t, start, key, value, i)
    ensures start < i <= |t|
  {
  }

  lemma NoWalkAtEnd(t: bytes, i: nat)
    requires i == |t|
    ensures WalkMembers(t, i).None?
  {
  }

  // ---- Two walkers, one object ------------------------------------------------------

  /** Every key on the skipper's path decodes. */
  predicate KeysDecode(t: bytes, i: nat)
    requires i <= |t|
    decreases |t| - i
  {
    match SkipString(t, i)
    case None => true
    case Some(j) =>
      && KeyOf(t[i..j]).Some?
      && (match MemberStart(t, i)
          case None => true
          case Some(m) =>
            (match SkipValue(t, m)
             case None => true
             case Some(n) =>
               (match AfterElement(t, n, CLOSE_BRACE)
                case Next(k) => KeysDecode(t, k)
                case _ => true)))
  }

  lemma {:induction false} WalkersAgreeFrom(t: bytes, i: nat)
    requires i <= |t|
    ensures WalkMembers(t, i).Some? <==> Members(t, i).Some? && KeysDecode(t, i)
    ensures WalkMembers(t, i).Some? ==> Members(t, i) == Some(WalkMembers(t, i).value.close + 1)
    decreases |t| - i
  {
    hide SkipString, AfterKey, SkipValue, AfterElement, KeyOf, Trim;
    if MemberStart(t, i).Some? {
      var n := SkipValue(t, MemberStart(t, i).value);
      if n.Some? {
        var sep := AfterElement(t, n.value, CLOSE_BRACE);
        if sep.Next? {
          WalkersAgreeFrom(t, sep.at);
        }
      }
    }
  }

  predicate ObjectKeysDecode(t: bytes) {
    Has(t, 0, OPEN_BRACE) ==> KeysDecode(t, SkipWs(t, 1))
  }

  /**
   * The member walker succeeds exactly when the skipper does and every key on the
   * way decodes, and then both stop at the same closing brace.
   */
  lemma TwoWalkersAgree(text: bytes)
    ensures var t := Trim(text);
            && (WalkObject(text).Some? <==> SkipObject(t, 0).Some? && ObjectKeysDecode(t))
            && (WalkObject(text).Some? ==> SkipObject(t, 0) == Some(WalkObject(text).value.close + 1))
  {
    var t := Trim(text);
    if Has(t, 0, OPEN_BRACE) {
      WalkersAgreeFrom(t, SkipWs(t, 1));
    }
  }
}
