/** String helpers shared by the model: Python's `str.join` and `str(bool)`. */
module Text {

  /** `sep.join(words)` */
  function Join(words: seq<string>, sep: string): (r: string)
    ensures words == [] ==> r == ""
    ensures |words| == 1 ==> r == words[0]
  {
    if words == [] then ""
    else if |words| == 1 then words[0]
    else words[0] + (sep + Join(words[1..], sep))
  }

  /** Joining `w + rest` puts exactly one separator between `w` and the join of `rest`. */
  lemma JoinCons(w: string, rest: seq<string>, sep: string)
    requires rest != []
    ensures Join([w] + rest, sep) == w + (sep + Join(rest, sep))
  {
    assert ([w] + rest)[1..] == rest;
  }

  /** String concatenation is associative. */
  lemma Assoc(a: string, b: string, c: string)
    ensures (a + b) + c == a + (b + c)
  {
  }

  /** Python's `str(b)` on a boolean. */
  function PyStr(b: bool): (r: string)
    ensures r == "True" <==> b
    ensures r == "False" <==> !b
  {
    if b then "True" else "False"
  }
}
