/** Subrequests: staged headers, the launch, and its completion. */
module Subrequests {
  import opened Basics
  import opened Order
  import opened Headers

  const OK := 0
  const ERROR := -2
  const NGX_OK := 0
  const NGX_ERROR := -1

  datatype Verb = Unset | Get | Head | Post | Put | Delete | Patch | Options | OtherVerb

  /** A request's list of incoming headers. */
  class HeaderList {
    var elts: seq<Header>

    constructor (elts: seq<Header>)
      ensures this.elts == elts
    {
      this.elts := elts;
    }

    /** find_header */
    method FindHeader(name: bytes) returns (at: Option<nat>)
      ensures at == Find(elts, name)
    {
      var i := 0;
      while i < |elts|
        invariant i <= |elts| && forall j :: 0 <= j < i ==> !SameName(elts[j].name, name)
      {
        if SameName(elts[i].name, name) {
          FindIs(elts, name, i);
          return Some(i);
        }
        i := i + 1;
      }
      return None;
    }
  }

  /** The subrequest state of a request. */
  class SubrequestState {
    const parent: HeaderList
    /** Whether the n-th allocation or call into nginx fails. */
    const fails: nat -> bool
    var tick: nat
    var active: bool
    var done: bool
    var rc: int
    var captureBody: bool
    var bodyLimit: nat
    /** pending_headers: none before the first is staged. */
    var hasStaged: bool
    var staged: seq<Header>
    var subrequest: HeaderList?
    var verb: Verb

    constructor (parent: HeaderList, fails: nat -> bool)
      ensures this.parent == parent && this.fails == fails && tick == 0 && !active && staged == [] && subrequest == null
    {
      this.parent, this.fails, tick := parent, fails, 0;
      active, done, rc, captureBody, bodyLimit := false, false, NGX_OK, false, 0;
      hasStaged, staged, subrequest, verb := false, [], null, Unset;
    }

    ghost predicate Clean(a: nat, b: nat) { a <= b && forall k :: a <= k < b ==> !fails(k) }

    method Outside() returns (ok: bool)
      modifies this`tick
      ensures tick == old(tick) + 1 && ok == !fails(old(tick)) && (ok <==> Clean(old(tick), tick))
    {
      ok := !fails(tick);
      tick := tick + 1;
    }

    /** subrequest_set_header; a copy that fails leaves an unfinished header behind. */
    method SetHeader(allowed: bool, name: bytes, value: bytes) returns (rc: int)
      modifies this`tick, this`staged, this`hasStaged
      ensures old(tick) <= tick && (rc == OK <==> allowed && name != [] && !active && Clean(old(tick), tick))
      ensures rc in {OK, ERROR}
      ensures !allowed || name == [] || active ==> unchanged(this)
      ensures allowed && name != [] && !active ==>
        Staging(staged, hasStaged, tick, rc == OK) == Stage(old(Staging(staged, hasStaged, tick, true)), fails, Header(name, value))
    {
      if !allowed || |name| == 0 || active {
        return ERROR;
      }
      var ok;
      if !hasStaged {
        ok := Outside();
        if !ok {
          return ERROR;
        }
        hasStaged := true;
      }
      ok := Outside();
      if !ok {
        return ERROR;
      }
      staged := staged + [Header([], [])];
      ok := Outside();
      if !ok {
        return ERROR;
      }
      staged := staged[|staged| - 1 := Header(name, [])];
      assert staged == old(staged) + [Header(name, [])];
      ok := Outside();
      if !ok {
        return ERROR;
      }
      staged := staged[|staged| - 1 := Header(name, value)];
      assert staged == old(staged) + [Header(name, value)];
      return OK;
    }

    /** Copies one header into a new element: the element, its name, its value, its lower-case name. */
    method CopyHeader(dst: HeaderList, h: Header) returns (ok: bool)
      requires dst != parent
      modifies this`tick, dst
      ensures old(tick) < tick && (ok <==> Clean(old(tick), tick)) && (ok ==> dst.elts == old(dst.elts) + [h])
    {
      ok := Outside();
      if !ok {
        return;
      }
      dst.elts := dst.elts + [Header([], [])];
      ok := Outside();
      if !ok {
        return;
      }
      dst.elts := dst.elts[|dst.elts| - 1 := Header(h.name, [])];
      ok := Outside();
      if !ok {
        return;
      }
      dst.elts := dst.elts[|dst.elts| - 1 := h];
      ok := Outside();
    }

    /** clone_headers */
    method CloneHeaders(dst: HeaderList) returns (ok: bool)
      requires dst != parent
      modifies this`tick, dst
      ensures old(tick) < tick && (ok <==> Clean(old(tick), tick)) && (ok ==> dst.elts == parent.elts)
    {
      ok := Outside();
      if !ok {
        return;
      }
      dst.elts := [];
      for i := 0 to |parent.elts|
        invariant parent.elts == old(parent.elts) && dst.elts == parent.elts[..i]
        invariant old(tick) < tick && Clean(old(tick), tick)
      {
        ok := CopyHeader(dst, parent.elts[i]);
        if !ok {
          return;
        }
      }
      return true;
    }

    /** set_runtime_header */
    method SetRuntimeHeader(dst: HeaderList, h: Header) returns (ok: bool)
      requires dst != parent
      modifies this`tick, dst
      ensures old(tick) < tick && (ok <==> Clean(old(tick), tick)) && (ok ==> dst.elts == Override(old(dst.elts), h))
    {
      var at := dst.FindHeader(h.name);
      if at.None? {
        ok := Outside();
        if !ok {
          return;
        }
        dst.elts := dst.elts + [Header([], [])];
        ok := Outside();
        if !ok {
          return;
        }
        dst.elts := dst.elts[|dst.elts| - 1 := Header(h.name, [])];
        ok := Outside();
        if !ok {
          return;
        }
        at := Some(|dst.elts| - 1);
      }
      ok := Outside();
      if ok {
        dst.elts := dst.elts[at.value := dst.elts[at.value].(value := h.value)];
      }
    }

    method ApplyStaged(dst: HeaderList) returns (ok: bool)
      requires dst != parent
      modifies this`tick, dst
      ensures old(tick) <= tick && (ok <==> Clean(old(tick), tick)) && (ok ==> dst.elts == Overridden(old(dst.elts), staged))
    {
      for i := 0 to |staged|
        invariant old(tick) <= tick && Clean(old(tick), tick)
        invariant dst.elts == Overridden(old(dst.elts), staged[..i])
      {
        assert staged[..i + 1][..i] == staged[..i] && staged[..i + 1][i] == staged[i];
        ok := SetRuntimeHeader(dst, staged[i]);
        if !ok {
          return;
        }
      }
      assert staged[..|staged|] == staged;
      return true;
    }

    /** The copies of the arguments and of the post-subrequest record. */
    method CopyArguments(args: bytes, verb: Verb) returns (ok: bool)
      modifies this`tick
      ensures old(tick) < tick && (ok <==> verb != OtherVerb && Clean(old(tick), tick))
    {
      ok := Outside();
      if !ok {
        return;
      }
      if |args| != 0 {
        ok := Outside();
        if !ok {
          return;
        }
      }
      if verb == OtherVerb {
        return false;
      }
      ok := Outside();
    }

    /** subrequest: a new one starts only when none is active. */
    method Launch(allowed: bool, uri: bytes, args: bytes, verb: Verb, capture: bool, bufferSize: nat) returns (rc: int)
      modifies this
      ensures old(tick) <= tick
      ensures rc == OK <==> allowed && uri != [] && !old(active) && verb != OtherVerb && Clean(old(tick), tick)
      ensures parent.elts == old(parent.elts)
      ensures rc == OK ==> active && !done && staged == [] && captureBody == capture && bodyLimit == bufferSize
      ensures rc == OK ==> fresh(subrequest) && subrequest.elts == Overridden(parent.elts, old(staged))
      ensures rc == OK ==> this.verb == if verb == Unset then Get else verb
      ensures rc != OK ==> rc == ERROR && active == old(active) && staged == old(staged)
      ensures old(active) ==> unchanged(this)
    {
      if !allowed || |uri| == 0 || active {
        return ERROR;
      }
      var ok := CopyArguments(args, verb);
      if !ok {
        return ERROR;
      }
      captureBody, done, active, this.rc, subrequest, bodyLimit := capture, false, true, NGX_OK, null, bufferSize;
      ok := Outside();
      if !ok {
        active := false;
        return ERROR;
      }
      // The new request begins with its parent's headers.
      var sr := new HeaderList(parent.elts);
      subrequest, this.verb := sr, if verb == Unset then Get else verb;
      ok := InheritHeaders(sr);
      if !ok {
        active := false;
        return ERROR;
      }
      return OK;
    }

    /** Only a subrequest with staged headers gets a list of its own. */
    method InheritHeaders(sr: HeaderList) returns (ok: bool)
      requires sr != parent && sr.elts == parent.elts
      modifies this`tick, this`staged, sr
      ensures old(tick) <= tick && (ok <==> Clean(old(tick), tick))
      ensures ok ==> staged == [] && sr.elts == Overridden(parent.elts, old(staged))
      ensures !ok ==> staged == old(staged)
    {
      if |staged| != 0 {
        ok := CloneHeaders(sr);
        if !ok {
          return;
        }
        ok := ApplyStaged(sr);
        if !ok {
          return;
        }
        staged := [];
      }
      return true;
    }

    /** subrequest_done: `out` is the length of the captured body, if there is one. */
    method Done(sr: HeaderList, code: int, out: Option<nat>)
      modifies this`subrequest, this`rc, this`done, this`active
      ensures subrequest == sr && done && !active
      ensures rc == if captureBody && bodyLimit != 0 && out.Some? && out.value > bodyLimit then NGX_ERROR else code
    {
      subrequest, rc, done, active := sr, code, true, false;
      if !captureBody || bodyLimit == 0 {
        return;
      }
      if out.None? {
        return;
      }
      if out.value > bodyLimit {
        rc := NGX_ERROR;
      }
    }
  }

  /**
    * From staging to lookup: after a guest has staged any headers and launched, a name looked up in the subrequest gives
    * the value staged last for it, or else what the parent has.
    */
  method StageAndLaunch(s: SubrequestState, headers: seq<Header>, uri: bytes) returns (rc: int)
    requires !s.active && s.staged == [] && uri != [] && (forall h :: h in headers ==> h.name != [])
    modifies s
    ensures s.parent.elts == old(s.parent.elts)
    ensures rc == OK <==> s.Clean(old(s.tick), s.tick)
    ensures rc == OK ==> s.active && s.staged == [] && s.subrequest != null && forall name ::
      Value(s.subrequest.elts, name) ==
        if LastStaged(headers, name).Some? then LastStaged(headers, name) else Value(s.parent.elts, name)
  {
    for i := 0 to |headers|
      invariant !s.active && s.staged == headers[..i] && s.parent.elts == old(s.parent.elts)
      invariant old(s.tick) <= s.tick && s.Clean(old(s.tick), s.tick)
    {
      rc := s.SetHeader(true, headers[i].name, headers[i].value);
      if rc != OK {
        return;
      }
    }
    assert headers[..|headers|] == headers;
    rc := s.Launch(true, uri, [], Get, false, 0);
    if rc == OK {
      forall name {
        OverriddenMeans(s.parent.elts, headers, name);
      }
    }
  }
}
