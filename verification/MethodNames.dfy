/** Taking the service and the method out of a gRPC method string, `/package.Service/Method`. */
module MethodNames {
  import opened Basics

  const UNKNOWN := "unknown"

  /** `i` is the last place of `c` in `s`. */
  ghost predicate IsLast(s: string, c: char, i: nat) {
    i < |s| && s[i] == c && forall j :: i < j < |s| ==> s[j] != c
  }

  /** The last place of `c` in `s`, if it has one. */
  method RFind(s: string, c: char) returns (i: Option<nat>)
    ensures i.Some? ==> IsLast(s, c, i.value)
    ensures i.None? <==> c !in s
  {
    var n := |s|;
    while n > 0
      invariant 0 <= n <= |s|
      invariant forall j :: n <= j < |s| ==> s[j] != c
    {
      n := n - 1;
      if s[n] == c {
        return Some(n);
      }
    }
    i := None;
  }

  lemma SplitAtLast(s: string, c: char, i: nat)
    requires IsLast(s, c, i)
    ensures s == s[..i] + [c] + s[i + 1..] && c !in s[i + 1..]
  {
  }

  class LoggingInterceptor {
    var service: string
    var name: string

    /** `info` is the call's method string; there may be none. */
    constructor (info: Option<string>)
      ensures info.None? ==> service == UNKNOWN && name == UNKNOWN
      ensures info.Some? ==> ParsesTo(info.value, service, name)
    {
      service, name := UNKNOWN, UNKNOWN;
      new;
      if info.Some? {
        var full := info.value;
        if full != "" && full[0] == '/' {
          full := full[1..];
        }
        var pos := RFind(full, '/');
        if pos.Some? {
          SplitAtLast(full, '/', pos.value);
          name := full[pos.value + 1..];
          service := StripPackage(full[..pos.value]);
          assert full == full[..pos.value] + "/" + name && EndsAfterDot(full[..pos.value], service);
        } else {
          name := full;
        }
      }
    }
  }

  /** Strips everything up to the last dot. */
  method StripPackage(path: string) returns (service: string)
    ensures EndsAfterDot(path, service)
  {
    var dot := RFind(path, '.');
    if dot.None? {
      return path;
    }
    SplitAtLast(path, '.', dot.value);
    service := path[dot.value + 1..];
  }

  /** The method string without a leading slash. */
  function Trimmed(info: string): string {
    if info != "" && info[0] == '/' then info[1..] else info
  }

  /**
   What the parts mean: the name is what follows the last slash, the service what stands
   before it, from its last dot on; without a slash there is no service.
   */
  ghost predicate ParsesTo(info: string, service: string, name: string) {
    var full := Trimmed(info);
    && '/' !in name
    && (if '/' in full
        then exists path :: full == path + "/" + name && EndsAfterDot(path, service)
        else service == UNKNOWN && name == full)
  }

  /** `service` is `path` without anything up to its last dot. */
  ghost predicate EndsAfterDot(path: string, service: string) {
    && '.' !in service
    && (path == service || exists package :: path == package + "." + service)
  }

  lemma SplitIsUnique(a: string, b: string, c: string, d: string, sep: char)
    requires a + [sep] + b == c + [sep] + d && sep !in b && sep !in d
    ensures a == c && b == d
  {
    var s := a + [sep] + b;
    assert s[|a|] == sep && s[|c|] == sep;
    assert IsLast(s, sep, |a|) && IsLast(s, sep, |c|);
    assert a == s[..|a|] && c == s[..|c|];
    assert b == s[|a| + 1..] && d == s[|c| + 1..];
  }

  /** The parse has one outcome only. */
  lemma ParseIsUnique(info: string, service: string, name: string, service': string, name': string)
    requires ParsesTo(info, service, name) && ParsesTo(info, service', name')
    ensures service == service' && name == name'
  {
    var full := Trimmed(info);
    if '/' in full {
      var path :| full == path + "/" + name && EndsAfterDot(path, service);
      var path' :| full == path' + "/" + name' && EndsAfterDot(path', service');
      SplitIsUnique(path, name, path', name', '/');
      if path != service && path' != service' {
        var package :| path == package + "." + service;
        var package' :| path' == package' + "." + service';
        SplitIsUnique(package, service, package', service', '.');
      }
    }
  }

  /**
   A well-formed method string is taken apart into the very parts it was made of, with or
   without a package.
   */
  lemma ParseOfMethodString(package: Option<string>, service: string, name: string, service': string, name': string)
    requires '.' !in service && '/' !in service && '/' !in name
    requires ParsesTo("/" + (if package.Some? then package.value + "." + service else service) + "/" + name,
                      service', name')
    ensures service' == service && name' == name
  {
    var path := if package.Some? then package.value + "." + service else service;
    var info := "/" + path + "/" + name;
    assert Trimmed(info) == path + "/" + name;
    assert EndsAfterDot(path, service);
    assert Trimmed(info)[|path|] == '/';
    ParseIsUnique(info, service, name, service', name');
  }

  /** Without a slash after the first character the service is unknown and the rest is the name. */
  lemma ParseWithoutSlash(info: string, service: string, name: string)
    requires '/' !in Trimmed(info)
    ensures ParsesTo(info, service, name) <==> service == "unknown" && name == Trimmed(info)
    ensures info == "/" + Trimmed(info) || info == Trimmed(info)
    ensures Trimmed(info) != "" && Trimmed(info) == info ==> info[0] != '/'
  {
  }
}
