/** Fixed names and base locations shared by the type decider and the binding
    generator (declared in src/common.ts). */
module Constants {

  /** Prefix of every generated construct class name. */
  const Cfn := "Cfn"

  /** Name of the synthetic tag property type and of the type every `tag` value resolves to. */
  const CfnTag := "CfnTag"

  /** Base locations of the construct library in each language ecosystem. */
  const TypescriptBase := "aws-cdk-lib"
  const GolangBase := "github.com/aws/aws-cdk-go/awscdk/v2"
  const JavaBase := "software.amazon.awscdk"
  const CsharpBase := "Amazon.CDK"
  const PythonBase := "aws_cdk"

  /** Go package of the serviceless core bindings. */
  const CoreGoPackage := "awscdk"
}
