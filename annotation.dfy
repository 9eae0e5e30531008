/**
 * What the linguistic annotator hands the bots for one sentence
 * (`sentence.as_doc()`): its tokens with their attributes and its noun chunks.
 * The annotator itself is not modelled; these values are its output.
 */
module Annotation {
  import opened Text

  /** One token: surface text, coarse part of speech (`pos_`), fine tag (`tag_`), dependency label (`dep_`), lemma (`lemma_`, here `lemmaForm`). */
  datatype Token = Token(text: string, pos: string, tag: string, dep: string, lemmaForm: string)

  /** A noun chunk: its text and the dependency label of its root token (`chunk.root.dep_`). */
  datatype NounChunk = NounChunk(text: string, rootDep: string)

  /** A sentence: its text (`sentence.text`), its tokens in order, and its noun chunks in order. */
  datatype Sentence = Sentence(text: string, tokens: seq<Token>, chunks: seq<NounChunk>)

  /** The `LOWER` attribute a pattern tests: the token's text lower-cased. */
  function LowerOf(t: Token): string
  {
    Lower(t.text)
  }
}
