/** File names below a report root: how the reader resolves a catalog entry, and the names the publisher uses. */
module ReportPaths {
  import opened Prelude
  import opened Sorting

  const CATALOG := "catalog.json"

  function ReportName(caseId: string): string { caseId + ".report.json" }

  function TempName(name: string): string { "." + name + ".tmp" }

  // ---------- Resolution ----------

  /** The components between slashes. */
  function Split(path: string): (r: seq<string>)
    ensures |r| >= 1
  {
    if path == [] then [[]]
    else
      var rest := Split(path[1..]);
      if path[0] == '/' then [[]] + rest else [[path[0]] + rest[0]] + rest[1..]
  }

  /** Empty components and single dots vanish. */
  function Parts(path: string): seq<string> { Filter((p: string) => p != "" && p != ".", Split(path)) }

  function Join(parts: seq<string>): string
  {
    if parts == [] then "" else if |parts| == 1 then parts[0] else parts[0] + "/" + Join(parts[1..])
  }

  function Lower(c: char): char { if 'A' <= c <= 'Z' then (c as int + 32) as char else c }

  predicate IsJsonName(name: string)
  {
    && |name| > 5
    && var suffix := name[|name| - 5..];
       suffix[0] == '.' && Lower(suffix[1]) == 'j' && Lower(suffix[2]) == 's' && Lower(suffix[3]) == 'o'
         && Lower(suffix[4]) == 'n'
  }

  /** The file a catalog entry names, relative to the root; None where the reader refuses the path. */
  function Resolve(path: string): Option<string>
  {
    var parts := Parts(path);
    if path == "" || path[0] == '/' || parts == [] || ".." in parts || !IsJsonName(parts[|parts| - 1]) then None
    else if Join(parts) == CATALOG then None
    else Some(Join(parts))
  }

  lemma {:induction false} SplitWhole(s: string)
    requires '/' !in s
    ensures Split(s) == [s]
  {
    if s != [] {
      assert s[0] in s && forall c :: c in s[1..] ==> c in s;
      SplitWhole(s[1..]);
      assert s == [s[0]] + s[1..];
    }
  }

  /** A plain file name resolves to itself. */
  lemma ResolvePlain(name: string)
    requires '/' !in name && IsJsonName(name) && name != CATALOG
    ensures Resolve(name) == Some(name)
  {
    SplitWhole(name);
    var kept := (p: string) => p != "" && p != ".";
    assert Filter(kept, [name][1..]) == [];
    assert kept(name);
    assert Parts(name) == [name];
    assert name[0] in name;
    assert name != "..";
  }

  lemma ReportNameShape(id: string)
    requires ValidId(id)
    ensures '/' !in ReportName(id) && IsJsonName(ReportName(id)) && ReportName(id) != CATALOG && |ReportName(id)| <= 172
  {
    var name := ReportName(id);
    assert |name| == |id| + 12 && |CATALOG| == 12;
    forall i | 0 <= i < |name| ensures name[i] != '/' {
      if i < |id| {
        assert name[i] == id[i];
      } else {
        assert name[i] == ".report.json"[i - |id|];
      }
    }
    assert name[|name| - 5..] == ".json";
  }

  /** What the publisher lists the reader resolves to the file the publisher wrote. */
  lemma ResolveReportName(id: string)
    requires ValidId(id)
    ensures Resolve(ReportName(id)) == Some(ReportName(id))
  {
    ReportNameShape(id);
    ResolvePlain(ReportName(id));
  }

  // ---------- What is accepted ----------

  lemma {:induction false} JoinEnds(parts: seq<string>)
    requires parts != []
    ensures var last, name := parts[|parts| - 1], Join(parts);
            |last| <= |name| && name[|name| - |last|..] == last
    ensures parts[0] <= Join(parts)
  {
    if |parts| > 1 {
      JoinEnds(parts[1..]);
    }
  }

  /** The components of a path hold no slash and spell it. */
  lemma {:induction false} SplitSpells(path: string)
    ensures Join(Split(path)) == path
    ensures forall p :: p in Split(path) ==> '/' !in p
  {
    if path != [] {
      SplitSpells(path[1..]);
      var rest := Split(path[1..]);
      assert path == [path[0]] + path[1..];
      if path[0] == '/' {
        assert Split(path)[1..] == rest;
      } else {
        assert Split(path)[1..] == rest[1..];
        assert rest[0] in rest;
      }
    }
  }

  lemma {:induction false} SplitFirst(a: string, b: string)
    requires '/' !in a
    ensures Split(a + "/" + b) == [a] + Split(b)
  {
    if a == [] {
      assert (a + "/" + b)[1..] == b;
    } else {
      assert a[0] in a && forall c :: c in a[1..] ==> c in a;
      SplitFirst(a[1..], b);
      assert (a + "/" + b)[1..] == a[1..] + "/" + b;
      assert a == [a[0]] + a[1..];
    }
  }

  lemma {:induction false} SplitJoin(parts: seq<string>)
    requires parts != [] && forall p :: p in parts ==> '/' !in p
    ensures Split(Join(parts)) == parts
  {
    assert parts[0] in parts;
    if |parts| == 1 {
      SplitWhole(parts[0]);
    } else {
      SplitJoin(parts[1..]);
      SplitFirst(parts[0], Join(parts[1..]));
      assert Join(parts) == parts[0] + "/" + Join(parts[1..]);
    }
  }

  predicate EndsInJson(name: string)
  {
    && |name| >= 5
    && name[|name| - 5] == '.' && name[|name| - 4] in "jJ" && name[|name| - 3] in "sS"
    && name[|name| - 2] in "oO" && name[|name| - 1] in "nN"
  }

  lemma JsonName(name: string)
    ensures IsJsonName(name) <==> EndsInJson(name) && |name| > 5
  {
    if |name| > 5 {
      var suffix := name[|name| - 5..];
      assert forall k :: 0 <= k < 5 ==> suffix[k] == name[|name| - 5 + k];
      LowerMeans(suffix[1]);
      LowerMeans(suffix[2]);
      LowerMeans(suffix[3]);
      LowerMeans(suffix[4]);
    }
  }

  lemma LowerMeans(c: char)
    ensures c in "jJ" <==> Lower(c) == 'j'
    ensures c in "sS" <==> Lower(c) == 's'
    ensures c in "oO" <==> Lower(c) == 'o'
    ensures c in "nN" <==> Lower(c) == 'n'
  {
    assert "jJ"[0] == 'j' && "sS"[0] == 's' && "oO"[0] == 'o' && "nN"[0] == 'n';
    assert "jJ"[1] == 'J' && "sS"[1] == 'S' && "oO"[1] == 'O' && "nN"[1] == 'N';
  }

  /** A relative path that never leaves the root: non-empty components, none of them a dot or two. */
  predicate StaysBelow(name: string)
  {
    && name != "" && name[0] != '/'
    && forall p :: p in Split(name) ==> p != "" && p != "." && p != ".."
  }

  /** Exactly which paths are accepted: empty components and single dots are dropped first. */
  lemma AcceptedPaths(path: string)
    ensures var parts := Filter((p: string) => p != "" && p != ".", Split(path));
            Resolve(path).Some? <==>
            && path != "" && path[0] != '/' && ".." !in Split(path)
            && parts != [] && EndsInJson(parts[|parts| - 1]) && |parts[|parts| - 1]| > 5
            && Join(parts) != "catalog.json"
  {
    var parts := Parts(path);
    if parts != [] {
      JsonName(parts[|parts| - 1]);
    }
  }

  /** What is accepted stays below the root, names a JSON file and keeps the components of the path. */
  lemma ResolvedStaysBelow(path: string)
    requires Resolve(path).Some?
    ensures var name := Resolve(path).value;
            && StaysBelow(name) && EndsInJson(name) && name != "catalog.json"
            && Split(name) == Filter((p: string) => p != "" && p != ".", Split(path))
  {
    var parts := Parts(path);
    SplitSpells(path);
    SplitJoin(parts);
    JoinEnds(parts);
    var name := Join(parts);
    var last := parts[|parts| - 1];
    assert parts[0] in parts && name[0] == parts[0][0];
    JsonName(last);
    assert forall k :: 0 <= k < |last| ==> last[k] == name[|name| - |last| + k];
  }

  /** Every path below the root to a JSON file other than the catalog is accepted as it stands, nested or not. */
  lemma NestedIsAccepted(path: string)
    requires StaysBelow(path) && path != "catalog.json"
    requires var parts := Split(path); EndsInJson(parts[|parts| - 1]) && |parts[|parts| - 1]| > 5
    ensures Resolve(path) == Some(path)
  {
    var parts := Split(path);
    FilterAll((p: string) => p != "" && p != ".", parts);
    SplitSpells(path);
    JsonName(parts[|parts| - 1]);
  }

  lemma FirstComponent(path: string, first: string, rest: string)
    requires '/' !in first && path == first + "/" + rest
    ensures first in Split(path)
  {
    SplitFirst(first, rest);
  }

  lemma OutsidePaths(path: string)
    requires path == "../outside.json" || path == "/tmp/outside.json"
    ensures path != "" && (path[0] == '/' || ".." in Split(path))
  {
    if path[0] != '/' {
      FirstComponent(path, "..", "outside.json");
    }
  }

  /** No entry resolves to the catalog or to a temporary file. */
  lemma ResolvedIsReport(path: string, name: string)
    ensures Resolve(path) != Some("catalog.json") && Resolve(path) != Some(TempName(name))
  {
    if Resolve(path).Some? {
      ResolvedStaysBelow(path);
      var file := Resolve(path).value;
      assert TempName(name)[|TempName(name)| - 1] == 'p';
      assert file[|file| - 1] in "nN";
    }
  }

  lemma ReportNameInjective(a: string, b: string)
    ensures ReportName(a) == ReportName(b) ==> a == b
  {
    assert a == ReportName(a)[..|a|] && b == ReportName(b)[..|b|];
    assert |ReportName(a)| == |a| + 12 && |ReportName(b)| == |b| + 12;
  }

  lemma ReportNameFresh(id: string, name: string)
    requires ValidId(id)
    ensures ReportName(id) != CATALOG && ReportName(id) != TempName(name)
  {
    ResolveReportName(id);
    ResolvedIsReport(ReportName(id), name);
  }

  // ---------- Size of a written catalog ----------

  /** The bytes a character takes in the publisher's JSON text. */
  function EscapedSize(c: char): nat
  {
    if c in "\"\\\n\r\t" || c as int == 8 || c as int == 12 then 2
    else if ' ' <= c <= '~' then 1
    else if c as int < 0x10000 then 6
    else 12
  }

  function HexDigit(n: nat): char
    requires n < 16
  {
    "0123456789abcdef"[n]
  }

  function Hex(n: nat): (r: string)
    requires n < 0x10000
    ensures |r| == 4
  {
    [HexDigit(n / 4096), HexDigit(n / 256 % 16), HexDigit(n / 16 % 16), HexDigit(n % 16)]
  }

  /** A character as the JSON encoder writes it: ASCII only, a pair of surrogates above the basic plane. */
  function EscapedText(c: char): string
  {
    var n := c as int;
    if c == '"' then "\\\""
    else if c == '\\' then "\\\\"
    else if n == 8 then "\\b"
    else if n == 9 then "\\t"
    else if n == 10 then "\\n"
    else if n == 12 then "\\f"
    else if n == 13 then "\\r"
    else if 32 <= n <= 126 then [c]
    else if n < 0x10000 then "\\u" + Hex(n)
    else "\\u" + Hex(0xd800 + (n - 0x10000) / 1024) + "\\u" + Hex(0xdc00 + n % 1024)
  }

  lemma EscapedTextSize(c: char)
    ensures |EscapedText(c)| == EscapedSize(c)
  {
    assert c in "\"\\\n\r\t" <==> c as int in {34, 92, 10, 13, 9};
  }

  function JsonText(s: string): string { if s == [] then [] else EscapedText(s[0]) + JsonText(s[1..]) }

  lemma {:induction false} JsonTextSize(s: string)
    ensures |JsonText(s)| == TextSize(s)
  {
    if s != [] {
      EscapedTextSize(s[0]);
      JsonTextSize(s[1..]);
    }
  }

  function TextSize(s: string): nat { if s == [] then 0 else EscapedSize(s[0]) + TextSize(s[1..]) }

  /** Identifiers and report names are written as they are. */
  lemma {:induction false} PlainSize(s: string)
    requires forall c :: c in s ==> ' ' <= c <= '~' && c != '"' && c != '\\'
    ensures TextSize(s) == |s|
  {
    if s != [] {
      assert s[0] in s && forall c :: c in s[1..] ==> c in s;
      PlainSize(s[1..]);
    }
  }

  lemma IdSize(id: string)
    requires ValidId(id)
    ensures TextSize(id) == |id| && TextSize(ReportName(id)) == |id| + 12
  {
    forall c | c in id ensures ' ' <= c <= '~' && c != '"' && c != '\\' {
      var i :| 0 <= i < |id| && id[i] == c;
    }
    PlainSize(id);
    forall c | c in ReportName(id) ensures ' ' <= c <= '~' && c != '"' && c != '\\' {
      assert c in id || c in ".report.json";
    }
    PlainSize(ReportName(id));
  }
}
