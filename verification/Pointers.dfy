/** References of the form "#/a/b": the string splitting and two-stage replacement
    that both resolvers perform, and the escaping of section 4 of RFC 6901. */
module Pointers {
  import opened Json

  /** `s.replace(from, by)`: leftmost, non-overlapping. */
  function Replace(s: string, from: string, repl: string): string
    requires from != ""
  {
    if |s| < |from| then s
    else if s[..|from|] == from then repl + Replace(s[|from|..], from, repl)
    else [s[0]] + Replace(s[1..], from, repl)
  }

  /** `s.split(sep)`. */
  function Split(s: string, sep: char): (parts: seq<string>)
    ensures |parts| >= 1
  {
    if s == "" then [""]
    else
      var rest := Split(s[1..], sep);
      if s[0] == sep then [""] + rest else [[s[0]] + rest[0]] + rest[1..]
  }

  function Join(parts: seq<string>, sep: char): string
    requires |parts| >= 1
  {
    if |parts| == 1 then parts[0] else parts[0] + [sep] + Join(parts[1..], sep)
  }

  /** Escaping by section 4 of RFC 6901: `~` becomes `~0` and `/` becomes `~1`. */
  function Escape(key: string): string {
    if key == "" then ""
    else (if key[0] == '~' then "~0" else if key[0] == '/' then "~1" else [key[0]]) + Escape(key[1..])
  }

  /** `token.replace("~1", "/").replace("~0", "~")`. */
  function Unescape(token: string): string {
    Replace(Replace(token, "~1", "/"), "~0", "~")
  }

  function UnescapeAll(tokens: seq<string>): (r: seq<string>)
    ensures |r| == |tokens|
    ensures forall i :: 0 <= i < |r| ==> r[i] == Unescape(tokens[i])
  {
    seq(|tokens|, i requires 0 <= i < |tokens| => Unescape(tokens[i]))
  }

  /** The value found by following `path` through nested objects. */
  function Walk(j: Json, path: seq<string>): Option<Json>
    decreases |path|
  {
    if path == [] then Some(j)
    else if j.Obj? && path[0] in j.members then Walk(j.members[path[0]], path[1..])
    else None
  }

  /** The reference that names a nested member. */
  function Reference(path: seq<string>): string
    requires path != []
  {
    "#/" + Join(seq(|path|, i requires 0 <= i < |path| => Escape(path[i])), '/')
  }

  /** What a local reference denotes. */
  function Target(document: Json, reference: string): Option<Json> {
    if "#/" <= reference then Walk(document, UnescapeAll(Split(reference[2..], '/'))) else None
  }

  method ResolveLocalRef(document: Json, reference: string) returns (r: Option<Json>)
    ensures r == Target(document, reference)
  {
    if !("#/" <= reference) {
      return None;
    }
    var tokens := Split(reference[2..], '/');
    ghost var keys := UnescapeAll(tokens);
    var current := document;
    for i := 0 to |tokens|
      invariant Walk(document, keys) == Walk(current, keys[i..])
    {
      var token := Unescape(tokens[i]);
      assert keys[i..][0] == token && keys[i..][1..] == keys[i + 1..];
      if !current.Obj? || token !in current.members {
        return None;
      }
      current := current.members[token];
    }
    return Some(current);
  }

  // ----- splitting undoes joining -----

  lemma {:induction false} SplitWord(word: string, sep: char)
    requires sep !in word
    ensures Split(word, sep) == [word]
  {
    if word != "" {
      SplitWord(word[1..], sep);
      assert [word[0]] + word[1..] == word;
    }
  }

  lemma {:induction false} SplitFirst(word: string, rest: string, sep: char)
    requires sep !in word
    ensures Split(word + [sep] + rest, sep) == [word] + Split(rest, sep)
  {
    var s := word + [sep] + rest;
    if word == "" {
      assert s[1..] == rest;
    } else {
      SplitFirst(word[1..], rest, sep);
      assert s[1..] == word[1..] + [sep] + rest;
      assert [word[0]] + word[1..] == word;
    }
  }

  lemma {:induction false} SplitJoin(words: seq<string>, sep: char)
    requires words != []
    requires forall w :: w in words ==> sep !in w
    ensures Split(Join(words, sep), sep) == words
  {
    if |words| == 1 {
      SplitWord(words[0], sep);
    } else {
      SplitFirst(words[0], Join(words[1..], sep), sep);
      SplitJoin(words[1..], sep);
    }
  }

  // ----- unescaping undoes escaping -----

  /** `key` with `~` already escaped and `/` not: the state between the two replacements. */
  function HalfEscape(key: string): string {
    if key == "" then ""
    else (if key[0] == '~' then "~0" else [key[0]]) + HalfEscape(key[1..])
  }

  lemma {:induction false} EscapeHasNoSlash(key: string)
    ensures '/' !in Escape(key)
  {
    if key != "" {
      EscapeHasNoSlash(key[1..]);
    }
  }

  lemma {:induction false} FirstStage(key: string)
    ensures Replace(Escape(key), "~1", "/") == HalfEscape(key)
  {
    if key != "" {
      FirstStage(key[1..]);
      var rest := Escape(key[1..]);
      if key[0] == '~' {
        assert Escape(key)[1..] == "0" + rest && ("0" + rest)[1..] == rest;
        assert Escape(key)[..2] == "~0" && ("0" + rest)[0] == '0';
        assert Replace(Escape(key), "~1", "/") == "~" + Replace("0" + rest, "~1", "/");
        assert Replace("0" + rest, "~1", "/") == "0" + Replace(rest, "~1", "/") by {
          if |rest| > 0 { assert ("0" + rest)[..2][0] == '0'; }
        }
      } else if key[0] == '/' {
        assert Escape(key)[..2] == "~1" && Escape(key)[2..] == rest;
      } else {
        assert Escape(key)[1..] == rest;
        if |Escape(key)| >= 2 { assert Escape(key)[..2][0] == key[0]; }
      }
    }
  }

  lemma {:induction false} SecondStage(key: string)
    ensures Replace(HalfEscape(key), "~0", "~") == key
  {
    if key != "" {
      SecondStage(key[1..]);
      var h, rest := HalfEscape(key), HalfEscape(key[1..]);
      if key[0] == '~' {
        assert h[..2] == "~0" && h[2..] == rest;
      } else {
        assert h[1..] == rest;
        if |h| >= 2 { assert h[..2][0] == key[0]; }
      }
      assert [key[0]] + key[1..] == key;
    }
  }

  lemma UnescapeEscape(key: string)
    ensures Unescape(Escape(key)) == key
  {
    FirstStage(key);
    SecondStage(key);
  }

  lemma {:induction false} ReplaceAbsent(s: string, from: string, repl: string)
    requires from != "" && from[0] !in s
    ensures Replace(s, from, repl) == s
  {
    if |s| >= |from| {
      assert s[..|from|][0] == s[0];
      ReplaceAbsent(s[1..], from, repl);
      assert [s[0]] + s[1..] == s;
    }
  }

  lemma UnescapePlain(s: string)
    requires '~' !in s
    ensures Unescape(s) == s
  {
    ReplaceAbsent(s, "~1", "/");
    ReplaceAbsent(s, "~0", "~");
  }

  /** The split and unescaped tokens of a built reference are the path it was built from. */
  lemma ReferenceTokens(path: seq<string>)
    requires path != []
    ensures "#/" <= Reference(path) && UnescapeAll(Split(Reference(path)[2..], '/')) == path
  {
    var words := seq(|path|, i requires 0 <= i < |path| => Escape(path[i]));
    forall i | 0 <= i < |path| ensures '/' !in words[i] && Unescape(words[i]) == path[i] {
      EscapeHasNoSlash(path[i]);
      UnescapeEscape(path[i]);
    }
    assert Reference(path)[2..] == Join(words, '/');
    SplitJoin(words, '/');
    assert UnescapeAll(words) == path;
  }

  /** Resolving the reference built from any path of arbitrary keys finds exactly what
      lies at that path, in every document. */
  lemma PointerInverse(document: Json, path: seq<string>)
    requires path != []
    ensures Target(document, Reference(path)) == Walk(document, path)
  {
    ReferenceTokens(path);
  }
}
