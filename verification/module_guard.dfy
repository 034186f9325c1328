/** The module guard: the license check run before a module is installed and
    the rule that keeps the license client itself installed. */
module ModuleGuard {
  import opened Values
  import opened Text
  import opened LicenseChecker

  /** The license client's own module, never blocked and never uninstalled
      while validation is enabled. */
  const SelfModule := "asg_license_client"

  /** The decision a guard reaches. */
  datatype Verdict =
    | Allowed
    | NotLicensed(blocked: seq<string>, allowed: seq<string>, message: string)  // `allowed` as listed in `message`
    | UninstallForbidden
    | Failed(error: PyError)  // an exception the guard does not catch

  /** The license query the guard made (if any) and its verdict. */
  datatype InstallCheck = InstallCheck(sent: Option<Request>, verdict: Verdict)

  /** The checker's answer can be searched with Python's `in`: a list
      (element equality), an object (its keys) or a string (substrings). */
  predicate IsContainer(data: Json)
  {
    data.JArr? || data.JObj? || data.JStr?
  }

  /** Python's `name in data` for a container. */
  predicate Contains(data: Json, name: string)
  {
    match data
    case JArr(items) => JStr(name) in items
    case JObj(fields) => name in fields
    case JStr(s) => IsSubstring(name, s)
    case _ => false
  }

  /** The strings of a list, when every element is one. */
  function Strings(items: seq<Json>): (names: Option<seq<string>>)
    ensures names.Some? <==> forall i :: 0 <= i < |items| ==> items[i].JStr?
    ensures names.Some? ==> |names.value| == |items|
                            && forall i :: 0 <= i < |items| ==> items[i] == JStr(names.value[i])
  {
    if items == [] then Some([])
    else if !items[0].JStr? then None
    else
      match Strings(items[1..])
      case None => None
      case Some(rest) => Some([items[0].s] + rest)
  }

  /** `sorted(data)` as joined into the message; joining raises a TypeError
      for any element that is not a string. */
  function Listing(data: Json): (l: Outcome<seq<string>>)
    requires IsContainer(data)
    ensures l.Returns? ==> Sorted(l.value)
    ensures data.JArr? ==> (l.Returns? <==> Strings(data.items).Some?)
    ensures data.JArr? && l.Returns? ==> multiset(l.value) == multiset(Strings(data.items).value)
    ensures data.JObj? ==> l.Returns? && |l.value| == |data.fields| && forall k :: k in l.value <==> k in data.fields
    ensures data.JStr? ==> l.Returns? && |l.value| == |data.s| && multiset(l.value) == multiset(Chars(data.s))
    ensures l.Throws? ==> l.error == TypeError
  {
    match data
    case JArr(items) =>
      (match Strings(items)
       case Some(names) => Returns(SortStrings(names))
       case None => Throws(TypeError))
    case JObj(fields) => Returns(SortedKeys(fields.Keys))
    case JStr(s) => Returns(SortStrings(Chars(s)))
  }

  /** The selected modules that `data` does not license, in selection order;
      the license client itself is never among them. */
  function Blocked(selected: seq<string>, data: Json): (b: seq<string>)
    ensures forall n :: n in b <==> n in selected && !Contains(data, n) && n != SelfModule
    ensures |b| <= |selected|
  {
    if selected == [] then []
    else
      var rest := Blocked(selected[1..], data);
      if !Contains(data, selected[0]) && selected[0] != SelfModule then [selected[0]] + rest else rest
  }

  /** Blocking is decided module by module: the blocked list of a
      concatenation is the concatenation of the blocked lists. */
  lemma {:induction false} BlockedAppend(a: seq<string>, b: seq<string>, data: Json)
    ensures Blocked(a + b, data) == Blocked(a, data) + Blocked(b, data)
  {
    if a == [] {
      assert a + b == b;
    } else {
      assert (a + b)[1..] == a[1..] + b;
      BlockedAppend(a[1..], b, data);
    }
  }

  /** The selection without the license client. */
  function Others(selected: seq<string>): seq<string>
  {
    if selected == [] then []
    else if selected[0] == SelfModule then Others(selected[1..])
    else [selected[0]] + Others(selected[1..])
  }

  /** An empty allowed list (an answer, unlike `None`) blocks every selected
      module except the license client. */
  lemma {:induction false} EmptyListBlocksOthers(selected: seq<string>)
    ensures Blocked(selected, JArr([])) == Others(selected)
  {
    if selected != [] {
      EmptyListBlocksOthers(selected[1..]);
    }
  }

  /** The decision taken on the checker's answer `data` (lines after the
      query in `_check_module_license`). */
  function Judge(selected: seq<string>, data: Json): (v: Verdict)
    ensures data == JNull ==> v == Allowed
    ensures !IsContainer(data) && data != JNull ==> v == Failed(TypeError)
    ensures IsContainer(data) && Contains(data, "all") ==> v == Allowed
    ensures IsContainer(data) && !Contains(data, "all") ==>
              (v.Allowed? <==> forall n :: n in selected ==> Contains(data, n) || n == SelfModule)
    ensures v.NotLicensed? ==> v.blocked == Blocked(selected, data) && v.blocked != [] && Listing(data) == Returns(v.allowed)
    ensures v.NotLicensed? ==> v.message == NotLicensedMessage(v.blocked, v.allowed)
    ensures v.Failed? && IsContainer(data) ==> data.JArr? && Strings(data.items).None?
    ensures v.Failed? ==> v.error == TypeError
    ensures !v.UninstallForbidden?
  {
    if data == JNull then Allowed
    else if !IsContainer(data) then Failed(TypeError)
    else if Contains(data, "all") then Allowed
    else
      var blocked := Blocked(selected, data);
      if blocked == [] then Allowed
      else
        assert blocked[0] in blocked;
        match Listing(data)
        case Returns(allowed) => NotLicensed(blocked, allowed, NotLicensedMessage(blocked, allowed))
        case Throws(e) => Failed(e)
  }

  /** `_check_module_license` for the modules `selected`, with `skip` the
      truthiness of the `skip_license_check` context flag. */
  function CheckModuleLicense(config: Config, skip: bool, database: string, selected: seq<string>,
                              remote: Request -> HttpOutcome): (r: InstallCheck)
    ensures !IsEnabled(config) || skip ==> r == InstallCheck(None, Allowed)
    ensures IsEnabled(config) && !skip ==>
              var c := CheckLicense(config, database, "modules", remote);
              && r.sent == c.sent
              && (c.reply == Returns(JNull) ==> r.verdict == Allowed)
              && (c.reply.Throws? ==> r.verdict == Failed(c.reply.error))
              && (c.reply.Returns? ==> r.verdict == Judge(selected, c.reply.value))
    ensures r.verdict.NotLicensed? ==> forall n :: n in r.verdict.blocked ==> n in selected && n != SelfModule
    ensures !r.verdict.UninstallForbidden?
  {
    if !IsEnabled(config) then InstallCheck(None, Allowed)
    else if skip then InstallCheck(None, Allowed)
    else
      var c := CheckLicense(config, database, "modules", remote);
      match c.reply
      case Throws(e) => InstallCheck(c.sent, Failed(e))
      case Returns(data) => InstallCheck(c.sent, Judge(selected, data))
  }

  /** What a button does, in order: the license query (if any) and then the
      host's own operation, which runs only when the guard allows. */
  datatype Step = Query(request: Request) | HostInstall(immediate: bool) | HostUninstall
  datatype Action = Action(steps: seq<Step>, verdict: Verdict)

  /** `button_install` (`immediate` false) and `button_immediate_install`
      (`immediate` true): the license check first, then the host. */
  function ButtonInstall(config: Config, skip: bool, database: string, selected: seq<string>,
                         remote: Request -> HttpOutcome, immediate: bool): (a: Action)
    ensures a.verdict == CheckModuleLicense(config, skip, database, selected, remote).verdict
    ensures a.verdict.Allowed? <==> a.steps != [] && a.steps[|a.steps| - 1] == HostInstall(immediate)
    ensures var sent := CheckModuleLicense(config, skip, database, selected, remote).sent;
            var queries := match sent case Some(q) => [Query(q)] case None => [];
            a.steps == queries || a.steps == queries + [HostInstall(immediate)]
    ensures forall i :: 0 <= i < |a.steps| - 1 ==> a.steps[i].Query?
    ensures forall i :: 0 <= i < |a.steps| ==> !a.steps[i].HostUninstall?
    ensures |a.steps| <= 2
  {
    var guard := CheckModuleLicense(config, skip, database, selected, remote);
    var queries := match guard.sent case Some(req) => [Query(req)] case None => [];
    if guard.verdict.Allowed? then Action(queries + [HostInstall(immediate)], guard.verdict)
    else Action(queries, guard.verdict)
  }

  /** `button_uninstall`: while validation is enabled, a selection holding
      the license client is refused whatever the server says; otherwise the
      host uninstalls. */
  method ButtonUninstall(config: Config, selected: seq<string>) returns (a: Action)
    ensures a.verdict == UninstallForbidden <==> IsEnabled(config) && SelfModule in selected
    ensures a.verdict == UninstallForbidden ==> a.steps == []
    ensures a.verdict != UninstallForbidden ==> a == Action([HostUninstall], Allowed)
  {
    if IsEnabled(config) {
      var i := 0;
      while i < |selected|
        invariant 0 <= i <= |selected|
        invariant SelfModule !in selected[..i]
      {
        if selected[i] == SelfModule {
          return Action([], UninstallForbidden);
        }
        i := i + 1;
      }
      assert selected[..i] == selected;
    }
    a := Action([HostUninstall], Allowed);
  }

  /** The message of the NotLicensed error: the blocked modules one per
      bullet, then the allowed ones joined by ", " after "Allowed modules: ". */
  function NotLicensedMessage(blocked: seq<string>, allowed: seq<string>): (m: string)
    ensures IsSubstring("Allowed modules: " + Join(allowed, ", "), m)
    ensures forall i :: 0 <= i < |blocked| ==> IsSubstring(blocked[i], m)
  {
    var head := "The following modules are not included in your license:\n\n• ";
    var listing := "Allowed modules: " + Join(allowed, ", ");
    var tail := "\n\nPlease contact your administrator to add these modules to your license.";
    MessageParts(blocked, "\n• ", head, "\n\n", listing, tail);
    head + Join(blocked, "\n• ") + "\n\n" + listing + tail
  }

  /** The parts joined into the bullets, and the listing after them, both
      occur in the framed message. */
  lemma MessageParts(blocked: seq<string>, sep: string, head: string, gap: string, listing: string, tail: string)
    ensures IsSubstring(listing, head + Join(blocked, sep) + gap + listing + tail)
    ensures forall i :: 0 <= i < |blocked| ==> IsSubstring(blocked[i], head + Join(blocked, sep) + gap + listing + tail)
  {
    var bullets := Join(blocked, sep);
    var m := head + bullets + gap + listing + tail;
    SubstringInContext(listing, head + bullets + gap, tail);
    forall i | 0 <= i < |blocked| ensures IsSubstring(blocked[i], m) {
      JoinContainsParts(blocked, sep, i);
      InFrame(blocked[i], head, bullets, gap + listing + tail);
      assert head + bullets + (gap + listing + tail) == m;
    }
  }
}
