/** The codec a connection uses (crates/resp/src/codec.rs): the parser and the encoder behind one object. */
module RespCodec {
  import opened RespTypes
  import opened Buffers
  import P = RespParser
  import E = RespEncoder

  class RespCodec {
    const parser: P.RespParser

    constructor (lim: Limits)
      ensures parser.lim == lim && parser.state == P.WaitingForType && parser.depth == 0 && parser.Ready()
      ensures fresh(parser)
    {
      parser := new P.RespParser(lim);
    }

    method Decode(src: Buffer) returns (r: P.Result)
      requires parser.Ready()
      modifies parser, src
      ensures parser.Ready()
      ensures P.Outcome(r, parser.state, parser.depth, src.data) ==
              P.Run(parser.lim, old(parser.state), old(parser.depth), old(src.data))
    {
      r := parser.Parse(src);
    }

    method Encode(item: Value, dst: Buffer)
      modifies dst
      ensures dst.data == old(dst.data) + E.Encode(item)
    {
      E.EncodeTo(item, dst);
    }
  }
}
