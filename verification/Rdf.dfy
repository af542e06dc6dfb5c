/** RDF data: terms, triples and graphs. A literal is its lexical form; datatypes and language
    tags play no part here. */
module Rdf {

  datatype Term = Iri(iri: string) | Blank(id: string) | Literal(lexical: string)
  datatype Triple = Triple(s: Term, p: Term, o: Term)
  type Graph = set<Triple>

  const RDF_TYPE := Iri("rdf:type")
}
