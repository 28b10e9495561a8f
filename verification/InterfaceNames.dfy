/**
  Interface, bus and object names from the demangled C++ type of an interface list:
  the pointer walks over the text, and why template arguments never matter.
 */
module InterfaceNames {
  import opened Wrappers
  import opened CStrings

  const PREFIX := "simppl::make_typelist<"

  /** What has been collected so far in front of what is still to come. */
  function Joined<T>(done: seq<T>, rest: Option<seq<T>>): (r: Option<seq<T>>)
    ensures r.Some? ==> rest.Some? && |r.value| == |done| + |rest.value|
  {
    match rest
    case None => None
    case Some(more) => Some(done + more)
  }

  lemma JoinedNothing<T>(rest: Option<seq<T>>)
    ensures Joined([], rest) == rest
  {
    if rest.Some? {
      assert [] + rest.value == rest.value;
    }
  }

  lemma JoinedTwice<T>(a: seq<T>, b: seq<T>, rest: Option<seq<T>>)
    ensures Joined(a, Joined(b, rest)) == Joined(a + b, rest)
  {
    if rest.Some? {
      assert a + (b + rest.value) == (a + b) + rest.value;
    }
  }

  // ----- what the walks compute, on the text still ahead -----

  /** A C++ scope name with dots: every colon becomes a dot and swallows its successor; None when it would run past the end. */
  function Dotted(s: string): (r: Option<string>)
    ensures r.Some? ==> |r.value| <= |s|
  {
    if s == "" then Some("")
    else if s[0] == ':' then
      if |s| == 1 then None else Joined(".", Dotted(s[2..]))
    else Joined([s[0]], Dotted(s[1..]))
  }

  /** The number of colons a text ends in. */
  function Trailing(s: string): nat {
    if s == "" || s[|s| - 1] != ':' then 0 else 1 + Trailing(s[..|s| - 1])
  }

  lemma {:induction false} TrailingBehind(c: char, s: string)
    ensures Trailing([c] + s) == Trailing(s) + if c == ':' && Trailing(s) == |s| then 1 else 0
    ensures Trailing(s) <= |s|
  {
    var all := [c] + s;
    if s == "" {
      assert all[..|all| - 1] == "";
    } else if s[|s| - 1] == ':' {
      assert all[..|all| - 1] == [c] + s[..|s| - 1];
      TrailingBehind(c, s[..|s| - 1]);
    }
  }

  /** The walk runs past the end exactly on texts that end in an odd number of colons. */
  lemma {:induction false} DottedExactly(s: string)
    ensures Dotted(s).None? <==> Trailing(s) % 2 == 1
  {
    if s != "" && s[0] != ':' {
      assert s == [s[0]] + s[1..];
      TrailingBehind(s[0], s[1..]);
      DottedExactly(s[1..]);
    } else if s == ":" {
      assert s[..0] == "";
    } else if s != "" {
      assert s == [s[0]] + ([s[1]] + s[2..]);
      ColonSwallows(s[0], s[1], s[2..]);
      DottedExactly(s[2..]);
    }
  }

  /** A colon and its successor, taken off the front, leave the parity at the end alone. */
  lemma ColonSwallows(colon: char, c: char, rest: string)
    requires colon == ':'
    ensures var t := Trailing([colon] + ([c] + rest));
            t == Trailing(rest) || t == Trailing(rest) + 2
  {
    var more := [c] + rest;
    TrailingBehind(c, rest);
    TrailingBehind(colon, more);
    assert |more| == 1 + |rest|;
  }

  /** Splits at the first opening bracket: what is before it, what is behind it. */
  function AtBracket(s: string): (r: Option<(string, string)>)
    ensures r.Some? ==> s == r.value.0 + "<" + r.value.1 && '<' !in r.value.0
    ensures r.None? <==> '<' !in s
  {
    if s == "" then None
    else if s[0] == '<' then Some(("", s[1..]))
    else
      var r :- AtBracket(s[1..]);
      Some(([s[0]] + r.0, r.1))
  }

  /** The first bracket is where it is, however it was found. */
  lemma {:induction false} BracketAt(before: string, behind: string)
    requires '<' !in before
    ensures AtBracket(before + "<" + behind) == Some((before, behind))
  {
    var s := before + "<" + behind;
    if before == "" {
      assert s[1..] == behind;
    } else {
      assert s[1..] == before[1..] + "<" + behind;
      BracketAt(before[1..], behind);
      assert [before[0]] + before[1..] == before;
    }
  }

  /** Skips brackets until the level is back at zero; None when the text ends before. */
  function SkipArgs(s: string, level: nat): (r: Option<string>)
    ensures r.Some? ==> |r.value| <= |s|
    decreases |s|
  {
    if level == 0 then Some(s)
    else if s == "" then None
    else SkipArgs(s[1..], if s[0] == '<' then level + 1 else if s[0] == '>' then level - 1 else level)
  }

  function SkipSpaces(s: string): (r: string)
    ensures |r| <= |s|
  {
    if s != "" && IsSpace(s[0]) then SkipSpaces(s[1..]) else s
  }

  /** The end of one interface: another one follows, the list ends, or an assertion fails. */
  datatype Next = More(rest: string) | End | Crash

  function NextInterface(args: string): (r: Next)
    ensures r.More? ==> |r.rest| < |args|
  {
    match SkipArgs(args, 1)
    case None => Crash
    case Some(behind) =>
      var s := SkipSpaces(behind);
      if s == "" then Crash
      else if s[0] == ',' then More(SkipSpaces(s[1..]))
      else if s[0] == '>' then End
      else Crash
  }

  /** The dotted names of an interface list; None when an assertion fails or the text runs out. */
  function Names(s: string): Option<seq<string>>
    decreases |s|
  {
    match AtBracket(s)
    case None => None
    case Some((src, args)) =>
      if src == "" then None
      else
        var name :- Dotted(src);
        match NextInterface(args)
        case Crash => None
        case End => Some([name])
        case More(rest) => Joined([name], Names(rest))
  }

  function InterfaceList(text: string): Option<seq<string>> {
    if TextLess(PREFIX, text) && |text| >= |PREFIX| then Names(text[|PREFIX|..]) else None
  }

  // ----- the walks -----

  /** make_interface_name on the characters from src up to end. */
  method MakeInterfaceName(text: string, src: nat, end: nat) returns (name: Option<string>)
    requires src <= end <= |text|
    ensures name == if src == end then None else Dotted(text[src..end])
    ensures name.None? <==> src == end || Trailing(text[src..end]) % 2 == 1
  {
    DottedExactly(text[src..end]);
    if end <= src {
      return None;
    }
    var dst: string := "";
    var p := src;
    JoinedNothing(Dotted(text[src..end]));
    while p != end
      invariant src <= p <= end
      invariant Dotted(text[src..end]) == Joined(dst, Dotted(text[p..end]))
      decreases end - p
    {
      ghost var ahead := text[p..end];
      if text[p] == ':' {
        if p + 1 == end {
          return None;
        }
        assert ahead[2..] == text[p + 2..end];
        JoinedTwice(dst, ".", Dotted(ahead[2..]));
        dst := dst + ".";
        p := p + 2;
      } else {
        assert ahead[1..] == text[p + 1..end];
        JoinedTwice(dst, [text[p]], Dotted(ahead[1..]));
        dst := dst + [text[p]];
        p := p + 1;
      }
    }
    assert dst + "" == dst;
    return Some(dst);
  }

  method SkipSpace(text: string, from: nat) returns (p: nat)
    requires from <= |text|
    ensures from <= p <= |text| && text[p..] == SkipSpaces(text[from..])
  {
    p := from;
    while p < |text| && IsSpace(text[p])
      invariant from <= p <= |text| && SkipSpaces(text[p..]) == SkipSpaces(text[from..])
    {
      assert text[p..][1..] == text[p + 1..];
      p := p + 1;
    }
  }

  datatype Position = Found(pos: nat) | NoMore | Failed

  /** find_next_interface, called on an opening bracket. */
  method FindNextInterface(text: string, open: nat) returns (r: Position)
    requires open < |text| && text[open] == '<'
    ensures match NextInterface(text[open + 1..])
            case More(rest) => r.Found? && open < r.pos <= |text| && text[r.pos..] == rest
            case End => r == NoMore
            case Crash => r == Failed
  {
    var s := open + 1;
    var level: nat := 1;
    while level > 0
      invariant open < s <= |text| && SkipArgs(text[s..], level) == SkipArgs(text[open + 1..], 1)
      decreases |text| - s
    {
      if s == |text| {
        return Failed;
      }
      assert text[s..][1..] == text[s + 1..];
      if text[s] == '<' {
        level := level + 1;
      } else if text[s] == '>' {
        level := level - 1;
      }
      s := s + 1;
    }
    s := SkipSpace(text, s);
    if s == |text| {
      return Failed;
    }
    if text[s] == ',' {
      assert text[s..][1..] == text[s + 1..];
      s := SkipSpace(text, s + 1);
      return Found(s);
    } else if text[s] == '>' {
      return NoMore;
    }
    return Failed;
  }

  /** strchr for the opening bracket. */
  method FindBracket(text: string, from: nat) returns (p: nat)
    requires from <= |text|
    ensures from <= p <= |text|
    ensures match AtBracket(text[from..])
            case None => p == |text|
            case Some((before, behind)) =>
              p < |text| && text[p] == '<' && before == text[from..p] && behind == text[p + 1..]
  {
    p := from;
    while p < |text| && text[p] != '<'
      invariant from <= p <= |text| && '<' !in text[from..p]
    {
      p := p + 1;
    }
    if p < |text| {
      assert text[from..] == text[from..p] + "<" + text[p + 1..];
      BracketAt(text[from..p], text[p + 1..]);
    } else {
      assert text[from..] == text[from..p];
    }
  }

  /** extract_interfaces. */
  method ExtractInterfaces(text: string) returns (interfaces: Option<seq<string>>)
    ensures interfaces == InterfaceList(text)
  {
    if !TextLess(PREFIX, text) || |text| < |PREFIX| {
      return None;
    }
    var names: seq<string> := [];
    var begin := |PREFIX|;
    JoinedNothing(Names(text[begin..]));
    while true
      invariant |PREFIX| <= begin <= |text|
      invariant Names(text[|PREFIX|..]) == Joined(names, Names(text[begin..]))
      decreases |text| - begin
    {
      ghost var ahead := text[begin..];
      var end := FindBracket(text, begin);
      if end == |text| {
        return None;
      }
      var name := MakeInterfaceName(text, begin, end);
      if name.None? {
        return None;
      }
      var next := FindNextInterface(text, end);
      match next {
        case Failed => return None;
        case NoMore => return Some(names + [name.value]);
        case Found(pos) =>
          JoinedTwice(names, [name.value], Names(text[pos..]));
          names := names + [name.value];
          begin := pos;
      }
    }
  }

  // ----- printing an interface list and reading it back -----

  /** An interface type: scopes and name, template arguments, and the blanks the demangler puts behind them. */
  datatype Interface = Interface(path: seq<string>, args: string, pad: string)

  /** Every bracket opened inside is closed inside. */
  predicate Balanced(s: string, level: nat) {
    if s == "" then level == 0
    else if s[0] == '<' then Balanced(s[1..], level + 1)
    else if s[0] == '>' then level > 0 && Balanced(s[1..], level - 1)
    else Balanced(s[1..], level)
  }

  predicate Identifier(s: string) {
    s != "" && ':' !in s && '<' !in s && !IsSpace(s[0])
  }

  predicate WellFormed(i: Interface) {
    && i.path != [] && (forall p | p in i.path :: Identifier(p))
    && Balanced(i.args, 0) && (forall c | c in i.pad :: IsSpace(c))
  }

  function Path(path: seq<string>, separator: string): string {
    if path == [] then ""
    else if |path| == 1 then path[0] else path[0] + separator + Path(path[1..], separator)
  }

  function RenderOne(i: Interface): string {
    Path(i.path, "::") + "<" + i.args + ">" + i.pad
  }

  function RenderAll(ifaces: seq<Interface>, behind: string): string
    requires ifaces != []
  {
    RenderOne(ifaces[0]) + (if |ifaces| == 1 then ">" + behind else ", " + RenderAll(ifaces[1..], behind))
  }

  /** The demangled type of an interface list. */
  function Render(ifaces: seq<Interface>): string
    requires ifaces != []
  {
    PREFIX + RenderAll(ifaces, "")
  }

  function DottedNames(ifaces: seq<Interface>): seq<string> {
    if ifaces == [] then [] else [Path(ifaces[0].path, ".")] + DottedNames(ifaces[1..])
  }

  lemma {:induction false} DottedIdentifier(name: string, rest: string)
    requires ':' !in name
    ensures Dotted(name + rest) == Joined(name, Dotted(rest))
  {
    if name == "" {
      assert name + rest == rest;
      JoinedNothing(Dotted(rest));
    } else {
      assert (name + rest)[1..] == name[1..] + rest;
      DottedIdentifier(name[1..], rest);
      JoinedTwice([name[0]], name[1..], Dotted(rest));
      assert [name[0]] + name[1..] == name;
    }
  }

  lemma {:induction false} DottedPath(path: seq<string>)
    requires path != [] && forall p | p in path :: Identifier(p)
    ensures Dotted(Path(path, "::")) == Some(Path(path, "."))
  {
    assert Identifier(path[0]);
    if |path| == 1 {
      DottedIdentifier(path[0], "");
      assert path[0] + "" == path[0];
    } else {
      var rest := Path(path[1..], "::");
      DottedPath(path[1..]);
      DottedIdentifier(path[0], "::" + rest);
      assert Path(path, "::") == path[0] + ("::" + rest);
      assert ("::" + rest)[2..] == rest;
      assert path[0] + ("." + Path(path[1..], ".")) == Path(path, ".");
    }
  }

  lemma {:induction false} PathIsPlain(path: seq<string>)
    requires path != [] && forall p | p in path :: Identifier(p)
    ensures Path(path, "::") != "" && '<' !in Path(path, "::") && !IsSpace(Path(path, "::")[0])
  {
    assert Identifier(path[0]);
    if |path| > 1 {
      PathIsPlain(path[1..]);
    }
  }

  lemma {:induction false} SkipBalanced(args: string, level: nat, rest: string)
    requires Balanced(args, level)
    ensures SkipArgs(args + ">" + rest, level + 1) == Some(rest)
    decreases args
  {
    var s := args + ">" + rest;
    if args == "" {
      assert s[1..] == rest;
    } else {
      assert s[1..] == args[1..] + ">" + rest;
      SkipBalanced(args[1..], if args[0] == '<' then level + 1 else if args[0] == '>' then level - 1 else level, rest);
    }
  }

  lemma {:induction false} SkipSpacesOf(pad: string, s: string)
    requires (forall c | c in pad :: IsSpace(c)) && (s == "" || !IsSpace(s[0]))
    ensures SkipSpaces(pad + s) == s
  {
    if pad == "" {
      assert pad + s == s;
    } else {
      assert (pad + s)[1..] == pad[1..] + s;
      SkipSpacesOf(pad[1..], s);
    }
  }

  lemma RenderedOne(i: Interface, behind: string)
    ensures RenderOne(i) + behind == Path(i.path, "::") + "<" + (i.args + ">" + (i.pad + behind))
  {
  }

  /** One interface read off the front of the list. */
  lemma ReadOne(i: Interface, behind: string)
    requires WellFormed(i) && behind != "" && !IsSpace(behind[0])
    ensures var name := Path(i.path, "::");
            AtBracket(RenderOne(i) + behind) == Some((name, i.args + ">" + (i.pad + behind)))
    ensures SkipArgs(i.args + ">" + (i.pad + behind), 1) == Some(i.pad + behind)
    ensures SkipSpaces(i.pad + behind) == behind
  {
    ReadName(i, behind);
    SkipBalanced(i.args, 0, i.pad + behind);
    SkipSpacesOf(i.pad, behind);
  }

  lemma ReadName(i: Interface, behind: string)
    requires WellFormed(i)
    ensures AtBracket(RenderOne(i) + behind) == Some((Path(i.path, "::"), i.args + ">" + (i.pad + behind)))
  {
    PathIsPlain(i.path);
    RenderedOne(i, behind);
    BracketAt(Path(i.path, "::"), i.args + ">" + (i.pad + behind));
  }

  lemma ReadLast(i: Interface, behind: string)
    requires WellFormed(i)
    ensures Names(RenderOne(i) + (">" + behind)) == Some([Path(i.path, ".")])
  {
    PathIsPlain(i.path);
    DottedPath(i.path);
    ReadOne(i, ">" + behind);
  }

  lemma ReadNext(i: Interface, rest: string)
    requires WellFormed(i) && rest != "" && !IsSpace(rest[0])
    ensures Names(RenderOne(i) + (", " + rest)) == Joined([Path(i.path, ".")], Names(rest))
  {
    PathIsPlain(i.path);
    DottedPath(i.path);
    ReadOne(i, ", " + rest);
    NextIs(i, rest);
  }

  /** Behind the arguments stands a comma: the next interface starts at the first text behind it. */
  lemma CommaNext(s: string, skipped: string, behind: string)
    requires SkipArgs(s, 1) == Some(skipped) && SkipSpaces(skipped) == behind
    requires behind != "" && behind[0] == ','
    ensures NextInterface(s) == More(SkipSpaces(behind[1..]))
  {
  }

  lemma NextIs(i: Interface, rest: string)
    requires WellFormed(i) && (rest == "" || !IsSpace(rest[0]))
    ensures NextInterface(i.args + ">" + (i.pad + (", " + rest))) == More(rest)
  {
    var behind := ", " + rest;
    var skipped := i.pad + behind;
    var args := i.args + ">" + skipped;
    assert SkipArgs(args, 1) == Some(skipped) && SkipSpaces(skipped) == behind by {
      ReadOne(i, behind);
    }
    assert SkipSpaces(behind[1..]) == rest by {
      assert behind[1..] == " " + rest;
      SkipSpacesOf(" ", rest);
    }
    CommaNext(args, skipped, behind);
  }

  lemma RenderStarts(ifaces: seq<Interface>, behind: string)
    requires ifaces != [] && WellFormed(ifaces[0])
    ensures RenderAll(ifaces, behind) != "" && !IsSpace(RenderAll(ifaces, behind)[0])
  {
    PathIsPlain(ifaces[0].path);
  }

  lemma {:induction false} NamesOfRendered(ifaces: seq<Interface>, behind: string)
    requires ifaces != [] && forall i | i in ifaces :: WellFormed(i)
    ensures Names(RenderAll(ifaces, behind)) == Some(DottedNames(ifaces))
    decreases ifaces
  {
    assert WellFormed(ifaces[0]);
    if |ifaces| == 1 {
      ReadLast(ifaces[0], behind);
      var name := Path(ifaces[0].path, ".");
      assert DottedNames(ifaces) == [name] + DottedNames(ifaces[1..]) == [name];
    } else {
      assert WellFormed(ifaces[1..][0]);
      RenderStarts(ifaces[1..], behind);
      NamesOfRendered(ifaces[1..], behind);
      ReadNext(ifaces[0], RenderAll(ifaces[1..], behind));
    }
  }

  /** Extraction undoes printing: the dotted names in order, whatever the template arguments. */
  lemma {:induction false} ExtractionUndoesPrinting(ifaces: seq<Interface>)
    requires ifaces != [] && forall i | i in ifaces :: WellFormed(i)
    ensures InterfaceList(Render(ifaces)) == Some(DottedNames(ifaces))
  {
    var rest := RenderAll(ifaces, "");
    assert WellFormed(ifaces[0]);
    RenderStarts(ifaces, "");
    NamesOfRendered(ifaces, "");
    assert Render(ifaces)[|PREFIX|..] == rest;
    PrefixLess(PREFIX, rest);
  }

  lemma {:induction false} PrefixLess(p: string, s: string)
    requires s != ""
    ensures TextLess(p, p + s)
  {
    if p != "" {
      assert (p + s)[1..] == p[1..] + s;
      PrefixLess(p[1..], s);
    } else {
      assert p + s == s;
    }
  }

  // ----- bus names and object paths -----

  function Slashes(s: string): (r: string)
    ensures |r| == |s| && forall i :: 0 <= i < |s| ==> r[i] == if s[i] == '.' then '/' else s[i]
  {
    seq(|s|, i requires 0 <= i < |s| => if s[i] == '.' then '/' else s[i])
  }

  /**
    make_error_name: rewrites the C string in place, the writing position never ahead of the
    reading one. Fails where the source steps over the terminator: on a name that ends in an
    odd number of colons.
   */
  method MakeErrorName(str: array<char>, ghost end: nat) returns (ok: bool)
    requires end < str.Length && str[end] == NUL && NUL !in str[..end]
    modifies str
    ensures ok <==> Trailing(old(str[..end])) % 2 == 0
    ensures ok ==> Dotted(old(str[..end])) == Some(CString(str[..]))
  {
    DottedExactly(str[..end]);
    var to: nat;
    ok, to := Rewrite(str, end);
    if ok {
      str[to] := NUL;
      assert str[..] == str[..to] + [NUL] + str[to + 1..];
      CStringStops(str[..to], str[to + 1..]);
    }
  }

  /** The loop of make_error_name: everything before the writing position is the dotted name. */
  method Rewrite(str: array<char>, ghost end: nat) returns (ok: bool, to: nat)
    requires end < str.Length && str[end] == NUL && NUL !in str[..end]
    modifies str
    ensures ok == Dotted(old(str[..end])).Some?
    ensures ok ==> to <= end && NUL !in str[..to] && Dotted(old(str[..end])) == Some(str[..to])
  {
    ghost var text, before := str[..end], str[..];
    var from := 0;
    to := 0;
    JoinedNothing(Dotted(text));
    while str[from] != NUL
      invariant to <= from <= end
      invariant forall i | from <= i <= end :: str[i] == before[i]
      invariant NUL !in str[..to]
      invariant Dotted(text) == Joined(str[..to], Dotted(text[from..]))
      decreases end - from
    {
      ghost var done, ahead := str[..to], text[from..];
      assert from < end && str[from] == ahead[0];
      if str[from] == ':' {
        if str[from + 1] == NUL {
          assert from + 1 == end;
          return false, to;
        }
        assert ahead[2..] == text[from + 2..];
        JoinedTwice(done, ".", Dotted(ahead[2..]));
        str[to] := '.';
        to, from := to + 1, from + 2;
        assert str[..to] == done + ".";
      } else {
        assert ahead[1..] == text[from + 1..];
        JoinedTwice(done, [ahead[0]], Dotted(ahead[1..]));
        str[to] := str[from];
        to, from := to + 1, from + 1;
        assert str[..to] == done + [ahead[0]];
      }
    }
    assert from == end && text[end..] == "";
    assert str[..to] + "" == str[..to];
    ok := true;
  }

  /** create_objectpath: prints, then rewrites the dots in place. */
  method CreateObjectPath(iface: string, role: string) returns (path: array<char>)
    requires NUL !in iface && NUL !in role
    ensures fresh(path) && path[..] == Slashes("/" + iface + "/" + role) + [NUL]
  {
    var printed := "/" + iface + "/" + role + [NUL];
    path := new char[|role| + |iface| + 3](i requires 0 <= i < |printed| => printed[i]);
    assert path[..] == printed;
    var p := 0;
    while path[p] != NUL
      invariant 0 <= p < |printed|
      invariant forall i :: 0 <= i < p ==> printed[i] != NUL && path[i] == if printed[i] == '.' then '/' else printed[i]
      invariant forall i :: p <= i < |printed| ==> path[i] == printed[i]
      decreases |printed| - p
    {
      if path[p] == '.' {
        path[p] := '/';
      }
      p := p + 1;
    }
    assert p == |printed| - 1;
  }

  /** The names of a stub: from the first interface of the list and the role. */
  datatype BusAddress = BusAddress(busname: string, objectpath: string)

  /** StubBase::init and SkeletonBase::init with a role. */
  method Init(text: string, role: string) returns (address: Option<BusAddress>)
    requires NUL !in text && NUL !in role
    ensures address == Address(text, role)
  {
    var ifaces := ExtractInterfaces(text);
    if ifaces.None? || ifaces.value == [] {
      return None;
    }
    var iface := CString(ifaces.value[0]);
    var path := CreateObjectPath(iface, role);
    assert path[..] == Slashes("/" + iface + "/" + role) + [NUL] + "";
    CStringStops(Slashes("/" + iface + "/" + role), "");
    return Some(BusAddress(iface + "." + role, CString(path[..])));
  }

  function Address(text: string, role: string): Option<BusAddress> {
    var names :- InterfaceList(text);
    if names == [] then None
    else
      var iface := CString(names[0]);
      Some(BusAddress(iface + "." + role, Slashes("/" + iface + "/" + role)))
  }

  /**
    A stub and a skeleton for the same interface and role meet: their list types differ in
    the template arguments only, and so name the same bus name and object path.
   */
  lemma StubMeetsSkeleton(stub: Interface, skeleton: Interface, role: string)
    requires WellFormed(stub) && WellFormed(skeleton) && stub.path == skeleton.path
    requires NUL !in Path(stub.path, ".")
    ensures Address(Render([stub]), role) == Address(Render([skeleton]), role)
    ensures var name := Path(stub.path, ".");
            Address(Render([stub]), role) == Some(BusAddress(name + "." + role, Slashes("/" + name + "/" + role)))
  {
    ExtractionUndoesPrinting([stub]);
    ExtractionUndoesPrinting([skeleton]);
  }
}
