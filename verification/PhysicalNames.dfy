/** Physical namespace names: "<namespace>::<cluster address>". */
module PhysicalNames {
  import opened Options

  datatype Namespace = Namespace(name: string, address: string)

  predicate DelimAt(s: string, i: int) {
    0 <= i < |s| - 1 && s[i] == ':' && s[i + 1] == ':'
  }

  /** Index of the first "::", or |s|. */
  function FirstDelim(s: string): (i: nat)
    ensures i == |s| || DelimAt(s, i)
    ensures forall j :: 0 <= j < i ==> !DelimAt(s, j)
  {
    if s == [] || DelimAt(s, 0) then 0 else
      var i := FirstDelim(s[1..]);
      assert forall j :: 0 < j ==> (DelimAt(s, j) <==> DelimAt(s[1..], j - 1));
      1 + i
  }

  /** strings.Split(s, "::"). */
  function Split(s: string): (parts: seq<string>)
    ensures parts != []
  {
    var i := FirstDelim(s);
    if i == |s| then [s] else [s[..i]] + Split(s[i + 2..])
  }

  function Build(name: string, address: string): string {
    name + "::" + address
  }

  /** None where the source indexes past the end of the split and panics. */
  function Parse(physical: string): Option<Namespace> {
    var parts := Split(physical);
    if |parts| < 2 then None else Some(Namespace(parts[0], parts[1]))
  }

  predicate HasDelim(s: string) {
    exists i :: 0 <= i < |s| && DelimAt(s, i)
  }

  /** The first delimiter of a name that goes on with "::" is that one. */
  predicate Unsplit(s: string) {
    !HasDelim(s) && !(s != [] && s[|s| - 1] == ':')
  }

  predicate Clean(name: string, address: string) {
    Unsplit(name) && !HasDelim(address)
  }

  lemma FirstDelimNone(s: string)
    ensures FirstDelim(s) == |s| <==> !HasDelim(s)
  {
  }

  lemma ParsePanicsIff(physical: string)
    ensures Parse(physical) == None <==> !HasDelim(physical)
  {
    FirstDelimNone(physical);
  }

  lemma FirstDelimOfBuild(name: string, address: string)
    ensures FirstDelim(Build(name, address)) <= |name|
    ensures FirstDelim(Build(name, address)) == |name| <==> Unsplit(name)
  {
    var s := Build(name, address);
    assert DelimAt(s, |name|);
    assert forall j :: 0 <= j < |name| - 1 ==> (DelimAt(s, j) <==> DelimAt(name, j));
    assert name != [] ==> (DelimAt(s, |name| - 1) <==> name[|name| - 1] == ':');
  }

  /** Every built name parses; it gives back its two parts exactly when they are clean. */
  lemma ParseBuild(name: string, address: string)
    ensures Parse(Build(name, address)).Some?
    ensures Parse(Build(name, address)) == Some(Namespace(name, address)) <==> Clean(name, address)
  {
    var s := Build(name, address);
    FirstDelimOfBuild(name, address);
    FirstDelimNone(address);
    var i := FirstDelim(s);
    assert |s[..i]| == i;
    if i == |name| {
      assert s[..i] == name;
      assert s[i + 2..] == address;
      assert Split(address)[0] == address[..FirstDelim(address)];
    }
  }

  lemma FirstPart(s: string, part: string)
    requires HasDelim(s)
    ensures s[..FirstDelim(s)] == part <==> Unsplit(part) && s == Build(part, s[FirstDelim(s) + 2..])
  {
    var i := FirstDelim(s);
    FirstDelimNone(s);
    assert s == Build(s[..i], s[i + 2..]);
    FirstDelimOfBuild(s[..i], s[i + 2..]);
    FirstDelimOfBuild(part, s[i + 2..]);
  }

  lemma BuiltTwice(name: string, address: string, rest: string)
    ensures Build(name, Build(address, rest)) == name + "::" + address + "::" + rest
  {
  }

  lemma ParsedShape(physical: string, name: string, address: string)
    requires Parse(physical) == Some(Namespace(name, address))
    ensures Unsplit(name)
    ensures (!HasDelim(address) && physical == Build(name, address)) ||
            (Unsplit(address) && exists rest :: physical == Build(name, Build(address, rest)))
  {
    ParsePanicsIff(physical);
    FirstPart(physical, name);
    var tail := physical[FirstDelim(physical) + 2..];
    FirstDelimNone(tail);
    assert Split(tail)[0] == tail[..FirstDelim(tail)];
    if HasDelim(tail) { FirstPart(tail, address); }
  }

  /** What parsing gives, whatever the string: the name before the first delimiter and the address
      between it and the next one or the end; anything behind is dropped. */
  lemma ParseExact(physical: string, name: string, address: string)
    ensures Parse(physical) == Some(Namespace(name, address)) <==>
            && Unsplit(name)
            && ((!HasDelim(address) && physical == name + "::" + address) ||
                (Unsplit(address) && exists rest :: physical == name + "::" + address + "::" + rest))
  {
    ParseBuild(name, address);
    if rest :| Unsplit(name) && Unsplit(address) && physical == name + "::" + address + "::" + rest {
      BuiltTwice(name, address, rest);
      ParseLonger(name, address, rest);
    }
    if Parse(physical) == Some(Namespace(name, address)) {
      ParsedShape(physical, name, address);
      if rest :| physical == Build(name, Build(address, rest)) { BuiltTwice(name, address, rest); }
    }
  }

  lemma ParseLonger(name: string, address: string, rest: string)
    requires Unsplit(name) && Unsplit(address)
    ensures Parse(Build(name, Build(address, rest))) == Some(Namespace(name, address))
  {
    var tail := Build(address, rest);
    var s := Build(name, tail);
    FirstDelimOfBuild(name, tail);
    FirstDelimOfBuild(address, rest);
    assert s[..|name|] == name && s[|name| + 2..] == tail && tail[..|address|] == address;
    assert Split(tail)[0] == address;
  }

  /** Clean names are never confused with one another. */
  lemma BuildInjective(n1: string, a1: string, n2: string, a2: string)
    requires Clean(n1, a1) && Clean(n2, a2) && Build(n1, a1) == Build(n2, a2)
    ensures n1 == n2 && a1 == a2
  {
    ParseBuild(n1, a1);
    ParseBuild(n2, a2);
  }
}
